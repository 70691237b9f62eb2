# A verified model of the Pintos kernel

Pintos is a small teaching kernel written in C. This project models the parts of it where the
difficult reasoning is, as Dafny state machines, functions and in-place algorithms, and proves what
the code promises: safety over every interleaving and every sequence of calls, round trips,
conservation of memory and disk space, fast forms against simple ones.

The model follows the code branch by branch, with its constants, its 32-bit and 64-bit arithmetic
and its error paths. Where the code does not do what one would expect of it, the model does what the
code does, and a lemma gives the exact condition under which the expected property holds; where that
condition alone does not show a failing case, another lemma gives a state or a run that has one.

The state of each subsystem is a value; each kernel function is a function from state to state; runs
are arbitrary sequences of the steps that the code allows, and the main theorems speak about all of
them. Beside these functions, the code that works by changing things step by step is written as
methods with loops on classes and arrays, each proved to compute exactly what its function says. The
methods are stacked as in the kernel: the scheduler's lists are linked lists of heap nodes, sorted in
place by the merge sort; the free map, the page pool and the swap slots are bitmaps of machine words;
swap and files are sectors of a device.

| files | subject |
|---|---|
| `Wrappers`, `Orders`, `List` | the optional value; stable sorting and ordered insertion; the intrusive doubly linked list and its in-place merge sort |
| `Arithmetic`, `Bits` | 64-bit division by 32-bit steps; bits of numbers |
| `Kernel`, `KernelInv`, `KernelSteps`, `KernelRuns`, `KernelTheorems` | scheduler, semaphores, locks, alarm clock, MLFQS: the transition system, its invariant, every step, every run, and what follows |
| `KernelExact`, `WaitOrder`, `ReadyOrder` | what the single operations do exactly; who is woken and who runs first among equals, over every run |
| `Mlfqs`, `MlfqsRules` | fixed-point scheduling arithmetic; what each timer tick recomputes |
| `Donation`, `DonationExact`, `DonationRuns`, `InversionRun` | priority donation: what the walk achieves, exactly what it gives to whom, runs that show its limits |
| `ThreadLists`, `KernelOps` | the ready, sleeping and waiter lists as linked lists; the kernel functions as methods over them |
| `Bitmap`, `Storage`, `Codec` | bitmaps in machine words; reading and writing a file's sectors; what inodes and directory entries look like on disk |
| `FileSys`, `FileSysInv`, `FileSysSteps`, `FileSysRuns`, `FileSysTheorems`, `FileSysBoot`, `FileSysOps` | the file system over a disk of bytes: operations, invariant, runs, life of a file, formatting, methods |
| `FileSysExact`, `FileSysMap`, `FileSysDeny` | exactly when its operations succeed; the free map in its file; files that deny writes |
| `Paging`, `PagingInv`, `PagingRuns`, `PagingOps` | frames, swap and memory-mapped files |
| `Eviction`, `FrameAccounts`, `SwapSlots` | the second-chance rule; where every page of memory is, and pinning; which swap slots are in use |
| `Heap`, `HeapInv`, `HeapTheorems`, `HeapExact`, `HeapAccounts`, `HeapOps` | the kernel's memory allocator over its page allocator: safety, which block is given when, nothing leaks |
| `Hash`, `Sorting` | the hash table; heapsort and binary search |
| `Elf`, `Ustar`, `Printf` | loading program segments; archive headers; printing and reading integers |

What comes from outside is a parameter: whether an allocation succeeds, which free page is found,
which identifier a new object gets, which thread runs into an interrupt.

Code and documentation disagree in these places, and the model follows the code:

- `lib/arithmetic.c` is to give 64-bit remainders; `umod64` and `smod64` return 32 bits
  (`Arithmetic.Umod64Exact`, `Arithmetic.Smod64Exact` say for which divisors that is exact).
- Donation is to reach the end of a chain of waiting threads; the walk crosses at most nine locks
  (`Donation.AcquireDonates`; `DonationRuns.ChainExact` has the runs, from boot).
- A thread's priority is to be the higher of its own and what it was given; `thread_set_priority`
  can leave it below (`Donation.SetPriorityExact`; `InversionRun.PriorityBelowDonation` has a run, from
  boot).
- `lock_release` is to reset the priority the lock has recorded; it keeps it
  (`KernelExact.ReleaseExact`).
- Waiters of equal priority are woken first come, first served (`WaitOrder.Fifo`); under MLFQS, where
  priorities fall, a later thread can come first (`WaitOrder.BlockedPlace`, `WaitOrder.OutOfTurn`).
- `vm_load_and_pin_range` is to pin the pages of a buffer; a page that is in memory already is not
  pinned (`FrameAccounts.PinExact`, `FrameAccounts.PinMissed`).
- `thread_get_recent_cpu` is to return 100 times the value; from about 1310 on the product overflows
  (`Mlfqs.ReportedExact`).
- `malloc` is to return a block of at least the size asked for; for the eleven largest sizes the sum
  with the header wraps around (`HeapTheorems.MallocHolds`, `HeapTheorems.WrappedRequest`), and what
  `realloc` then copies need not fit (`HeapTheorems.CopyRoom`, `HeapTheorems.CopyTooLong`).
- Eviction relies on the clock hand being on a frame of the table; `frame_free` does not move it
  (`PagingRuns.HandStays`, `PagingRuns.HandLost`).
- A swap slot is to be free when no page is in it; the number of the first slot also stands for no
  slot, so `spt_destroy_func` and `vm_load_page` forget it (`SwapSlots.SlotsExact`,
  `SwapSlots.SlotLost`).
- Unmapping a file is to leave other mappings alone; one that maps the same bytes of the file sees
  what is written back (`PagingRuns.UnmapExact`, `PagingRuns.MappedTwiceSees`).
- `load_segment` accepts segments whose file part runs past the end of the file; the pages there
  cannot be read (`Elf.SegmentImage`, `Elf.AllPagesInFile`).
- `vsnprintf` is to store all but one character of the size given; above 2^31 it stores none
  (`Printf.RoomExact`).
- `format_integer` is to fill a field to its width; with both the `-` and the `0` flag it overfills
  (`Printf.Padding`). The parser of conversions clears `0` when it has read `-`, but a negative `*`
  width sets `-` again afterwards (`Printf.ParsedWidth`, `Printf.NegativeWidth`).

## Model

| member | source | states |
|---|---|---|
| `IntrusiveList.List.Insert` | pintos/src/lib/kernel/list.c:168-178 | links the element in just before the given one; all other nodes keep their places |
| `IntrusiveList.List.Remove` | pintos/src/lib/kernel/list.c:248-255 | takes exactly that node out of the chain and returns the node that followed it |
| `IntrusiveList.List.PopFront` | pintos/src/lib/kernel/list.c:259-265 | returns the first element and leaves the rest in order |
| `IntrusiveList.List.Size` | pintos/src/lib/kernel/list.c:297-306 | the loop along the links counts the elements |
| `IntrusiveList.List.InsertInOrder` | pintos/src/lib/kernel/list.c:445-459 | the list afterwards is the reference ordered insertion, which `Orders.InsertOrderedSorted` characterises |
| `IntrusiveList.Splice` | pintos/src/lib/kernel/list.c:183-204 | moves a range of nodes before another node of the same list by relinking only, and the chain stays well linked |
| `IntrusiveList.SpliceAcross` | pintos/src/lib/kernel/list.c:183-204 | moves a range of nodes into another list: both chains stay well linked, no node is lost and none is in both |
| `IntrusiveList.FindEndOfRun` | pintos/src/lib/kernel/list.c:357-372 | returns the end of the maximal nondecreasing run: every pair before it is in order, and unless it is the bound the pair across it is not |
| `IntrusiveList.InplaceMerge` | pintos/src/lib/kernel/list.c:379-399 | two adjacent sorted ranges become one sorted range, stably, with the same nodes and nothing else in the list touched |
| `IntrusiveList.SortPass` | pintos/src/lib/kernel/list.c:404-440 | one pass leaves at most the number of runs it reports, fewer than before unless one was left, and is a stable rearrangement |
| `IntrusiveList.Sort` | pintos/src/lib/kernel/list.c:404-440 | the same nodes, relinked in place, sorted and stable: elements that compare equal keep their order; the passes come to an end |
| `Orders.StableSortCorrect` | pintos/src/lib/kernel/list.c:404-440 | the reference sort sorts and is stable for every strict weak order |
| `Orders.StableSortUnique` | pintos/src/lib/kernel/list.c:404-440 | a sorted stable rearrangement of distinct nodes is unique, so sorting the list determines the order of its nodes completely |
| `Orders.InsertOrderedSorted` | pintos/src/lib/kernel/list.c:442-459 | ordered insertion into a sorted list keeps it sorted and puts the new element after its equals |
| `ThreadLists.NodesSort` | pintos/src/lib/kernel/list.c:404-440 | sorting the nodes of a list by what their owners compare as is sorting the threads |
| `ThreadLists.NodesInsert` | pintos/src/lib/kernel/list.c:442-459 | inserting a node in order of the owners is inserting its thread in order |
| `ThreadLists.Lists.constructor` | pintos/src/threads/thread.c:118-144 | empty linked lists for the ready threads, the sleepers and the waiters of each semaphore, sharing no node |
| `ThreadLists.Lists.Insert` | pintos/src/lib/kernel/list.c:445-459 | a thread on no list is linked into one of them, where the reference insertion puts it; all other lists hold what they held |
| `ThreadLists.Lists.Pop` | pintos/src/lib/kernel/list.c:259-265 | unlinks and returns the first thread; all other lists hold what they held |
| `ThreadLists.Lists.SortBy` | pintos/src/lib/kernel/list.c:404-440 | relinks one list into the stable sort of its threads; all other lists hold what they held |
| `ThreadLists.Lists.PopLeast` | pintos/src/threads/synch.c:122-142 | sorting in place and taking the front gives the first of the stable sort and leaves its rest |
| `Arithmetic.Nlz` | pintos/src/lib/arithmetic.c:41-73 | the count of leading zeros: shifting by it brings the top bit to the top and loses nothing |
| `Arithmetic.UdivSmall` | pintos/src/lib/arithmetic.c:80-112 | for divisors below 2^32 the two 32-bit divisions never trap and give the 64-bit quotient |
| `Arithmetic.Estimate` | pintos/src/lib/arithmetic.c:113-126 | the quotient by the normalised divisor is the true one or one more |
| `Arithmetic.UdivLarge` | pintos/src/lib/arithmetic.c:113-126 | for larger divisors the corrected estimate is the quotient |
| `Arithmetic.Udiv64` | pintos/src/lib/arithmetic.c:77-127 | 64-bit unsigned division is exact for every dividend and nonzero divisor |
| `Arithmetic.Umod64` | pintos/src/lib/arithmetic.c:131-135 | the low 32 bits of the remainder, equal to it if and only if it is below 2^32 |
| `Arithmetic.Umod64Exact` | pintos/src/lib/arithmetic.c:131-135 | the narrowing does no harm for any dividend if and only if the divisor is at most 2^32 |
| `Arithmetic.Sdiv64` | pintos/src/lib/arithmetic.c:139-146 | signed division truncates toward zero, exactly unless INT64_MIN is divided by -1, which wraps |
| `Arithmetic.Smod64` | pintos/src/lib/arithmetic.c:150-154 | the truncated remainder narrowed to 32 bits, equal to it if and only if it fits |
| `Arithmetic.Smod64Exact` | pintos/src/lib/arithmetic.c:150-154 | no dividend is harmed by the narrowing if and only if the divisor is at most 2^31 in magnitude |
| `Arithmetic.SignedRemainder` | pintos/src/lib/arithmetic.c:148-154 | the remainder of truncated division is smaller than the divisor and has the sign of the dividend |
| `KernelTheorems.MutualExclusion` | pintos/src/threads/synch.c:182-194 | from boot, after any interleaving of threads and interrupts, two holders of one lock are the same thread, and the lock's semaphore is zero |
| `KernelTheorems.SemaphoreLaw` | pintos/src/threads/synch.c:50-142 | after any run value = initial value + ups - completed downs; and no wake-up is lost: while threads wait and the value is positive, at least that many threads are on their way to test it, and one is ready or running |
| `KernelTheorems.UpWakesHighest` | pintos/src/threads/synch.c:122-142 | sema_up makes ready a waiter of the highest priority, the first on the list of those, and takes only it off the list |
| `KernelTheorems.ListsAreExclusive` | pintos/src/threads/thread.c:26-33 | one thread runs; a thread is on the ready list if and only if it is ready and not idle; no thread is on two lists; a blocked thread is on the list that can wake it |
| `KernelTheorems.NextIsHighest` | pintos/src/threads/thread.c:641-649 | the thread switched to has the highest priority of all ready threads and is the first on the list among those; the idle thread runs only if no thread is ready |
| `KernelTheorems.YieldRunsHighest` | pintos/src/threads/thread.c:397-411 | after thread_yield no ready thread, and not the one that yielded, has a higher priority than the running one |
| `KernelTheorems.OthersKeepSleepers` | pintos/src/devices/timer.c:94-105 | no step of any thread other than the timer interrupt wakes a sleeper or moves its wake-up tick |
| `KernelTheorems.TickWakes` | pintos/src/devices/timer.c:178-203 | the timer interrupt wakes exactly the sleepers whose tick it is; none is ever overdue |
| `KernelTheorems.StaysAsleep` | pintos/src/devices/timer.c:94-105 | through any run that stops short of its tick a sleeper stays on the sleeping list with that tick |
| `KernelTheorems.AlarmIsExact` | pintos/src/devices/timer.c:92-105 | a thread that calls timer_sleep(n), n > 0, sleeps through every run of fewer than n ticks and is made ready by the n-th tick |
| `KernelTheorems.TickUsage` | pintos/src/threads/thread.c:174-210 | thread_tick keeps load_avg and every recent_cpu within the bounds for at most 545 runnable threads |
| `KernelTheorems.MlfqsBounds` | pintos/src/threads/thread.c:84-116 | over every run from any state within the bounds, with at most n <= 545 runnable threads, 0 <= load_avg <= n and recent_cpu stays within (2n+1)(100+20), so no update overflows |
| `KernelTheorems.MlfqsFromBoot` | pintos/src/threads/thread.c:84-116 | the same for every run from the state thread_start leaves |
| `KernelRuns.BootInv` | pintos/src/threads/thread.c:155-170 | the state after thread_start satisfies the kernel invariant |
| `KernelRuns.NextInv` | pintos/src/threads/thread.c:304-411 | every step of every kind (semaphores, locks, yields, sleeping, ticks, birth, death, priorities) keeps the invariant |
| `KernelRuns.RunInv` | pintos/src/threads/synch.c:50-338 | the invariant holds after every sequence of steps |
| `KernelRuns.WakeAllInv` | pintos/src/devices/timer.c:178-203 | the wake-up loop of the interrupt wakes exactly the sleepers that are due, makes each ready, and restores the invariant |
| `KernelInv.ScheduleInv` | pintos/src/threads/thread.c:641-718 | switching threads from the middle of a blocking operation restores the invariant |
| `KernelInv.TryDownInv` | pintos/src/threads/synch.c:74-90 | one round of sema_down, blocking or taking, keeps the invariant, including the number of holders of a lock |
| `KernelInv.SemaUpInv` | pintos/src/threads/synch.c:122-142 | sema_up keeps the invariant: the woken thread accounts for the value it was woken for |
| `Donation.WalkCovers` | pintos/src/threads/synch.c:238-260 | for every graph of waits, circular or not, the donation walk lowers no priority, and afterwards the only holder that may be below a waiter is where it stopped |
| `Donation.WalkExact` | pintos/src/threads/synch.c:238-260 | on a chain that is no circle the walk restores "holders are at least as high as their waiters" if and only if the first thread beyond its reach does not exist or is high enough already |
| `Donation.AcquireDonates` | pintos/src/threads/synch.c:214-261 | in any state where all holders cover their waiters, lock_acquire lowers no priority, and the rule holds with the new waiter if and only if the tenth thread of its chain does not exist or is high enough |
| `DonationRuns.ChainRun` | pintos/src/threads/synch.c:214-278 | from boot, for every k, threads creating locks, acquiring them and blocking lead to k+1 held locks of which the holder of each but the first waits for the one before |
| `DonationRuns.ChainExact` | pintos/src/threads/synch.h:7 | for every k there is a run from boot to a state in which all holders cover their waiters and in which a new waiter on a chain of k+1 locks leaves them covered if and only if k+1 is at most nine |
| `Donation.AcquireRecomputes` | pintos/src/threads/synch.c:262-278 | once acquired, the lock records its new holder and as maximum priority exactly the highest of the remaining waiters, or PRI_MIN |
| `Donation.ReleaseRecomputes` | pintos/src/threads/synch.c:309-338 | a release leaves the other locks, sorted, and as donation exactly the highest maximum among them, or PRI_MIN |
| `Donation.SetPriorityExact` | pintos/src/threads/thread.c:431-456 | thread_set_priority changes only the caller, and leaves max(new base, donation) if and only if not (priority <= new < donation), else the new base |
| `DonationExact.WalkGives` | pintos/src/threads/synch.c:238-260 | on a chain that does not run in a circle, exactly the threads within reach of the walk get the priority of its first thread, if theirs is lower, and no other priority changes |
| `DonationExact.WalkRecords` | pintos/src/threads/synch.c:238-260 | each lock within reach, and its holder, record the priority its waiter has after the walk, unless they had recorded a higher one |
| `DonationExact.WalkLeaves` | pintos/src/threads/synch.c:238-260 | no lock and no thread off the chain is touched |
| `DonationExact.AcquireGives` | pintos/src/threads/synch.c:214-260 | lock_acquire in any reachable state where holders cover their waiters: the priority, donation and recorded priority of every thread and lock afterwards |
| `KernelExact.DownExact` | pintos/src/threads/synch.c:74-90 | sema_down goes on if and only if the value is positive, taking one and keeping the processor; otherwise the thread blocks as a waiter |
| `KernelExact.InitExact` | pintos/src/threads/synch.c:58-66 | a new semaphore has the value given and no waiters, a new lock one and no holder, and nothing else changes |
| `KernelExact.TryDownExact` | pintos/src/threads/synch.c:97-114 | sema_try_down takes one if and only if the value is positive, and otherwise changes nothing |
| `KernelExact.TryLockExact` | pintos/src/threads/synch.c:286-302 | lock_try_acquire makes the caller the holder if and only if the semaphore was not taken, and otherwise changes nothing |
| `KernelExact.ReleaseExact` | pintos/src/threads/synch.c:309-338 | lock_release as a whole: the lock is free, its semaphore is one, and the caller has max(base, remaining donation) unless priority <= base < donation |
| `KernelExact.CreateExact` | pintos/src/threads/thread.c:235-296 | the new thread is ready with the priority asked for or, under MLFQS, the default and its parent's figures, and nothing changes for the others |
| `KernelExact.UnblockPlace` | pintos/src/threads/thread.c:322-339 | the ready threads keep their order, and the unblocked one is behind exactly those up to whom none has a lower priority |
| `KernelExact.ExitExact` | pintos/src/threads/thread.c:376-394 | every trace of the thread is gone, and no other thread is lost from the ready list |
| `KernelExact.SleepExact` | pintos/src/devices/timer.c:94-105 | returns at once for a time that is not positive, and otherwise blocks until the tick asked for |
| `WaitOrder.BlockedPlace` | pintos/src/threads/synch.c:74-90 | the waiters keep their order, and a thread that blocks is behind exactly those up to whom none has a lower priority |
| `WaitOrder.NextAhead` | pintos/src/threads/synch.c:74-142 | no step puts a waiter behind another of the same priority that came later, or wakes that one first |
| `WaitOrder.FirstComeFirstServed` | pintos/src/threads/synch.c:122-142 | over any run, of two waiters of equal priority the one that is ahead is woken first |
| `WaitOrder.Fifo` | pintos/src/threads/synch.c:74-142 | without MLFQS, a thread that blocks, and goes on waiting with the priority it has, is woken before a thread of the same priority that blocks on the semaphore later |
| `WaitOrder.OutOfTurn` | pintos/src/threads/synch.c:82 | under MLFQS a waiter whose priority has fallen lets a later thread of equal priority in before an earlier one: a state that satisfies the invariant and shows it |
| `ReadyOrder.YieldPlace` | pintos/src/threads/thread.c:397-411 | a thread that yields is behind exactly those ready threads up to whom none has a lower priority, and these keep their order |
| `ReadyOrder.YieldBehindEquals` | pintos/src/threads/thread.c:397-411 | under MLFQS it is behind all ready threads of its own priority |
| `ReadyOrder.NextInTurn` | pintos/src/threads/thread.c:641-649 | no step reorders two ready threads of equal priority, or runs the later one first |
| `ReadyOrder.RunsFirst` | pintos/src/threads/thread.c:641-649 | over any run, of two ready threads that keep equal priorities the one that is ahead runs first |
| `MlfqsRules.TickExact` | pintos/src/threads/thread.c:174-210 | with at most 545 threads running or ready, every tick charges exactly the running thread; exactly on each fourth tick all priorities are recomputed from usage and niceness by the rounded formula; exactly on each hundredth tick load average and usage then decay by theirs |
| `MlfqsRules.TickIdle` | pintos/src/threads/thread.c:174-210 | the idle thread is charged nothing and keeps its priority |
| `MlfqsRules.TickPlain` | pintos/src/devices/timer.c:178-204 | without MLFQS a tick changes no priority, no usage and no load average |
| `MlfqsRules.RunnableIs` | pintos/src/threads/thread.c:84-92 | the count that enters the load average is the number of threads that are running or ready, the idle thread apart |
| `MlfqsRules.SetNiceExact` | pintos/src/threads/thread.c:491-501 | thread_set_nice recomputes the caller's priority by the rounded formula, and changes no other thread's figures |
| `InversionRun.PriorityBelowDonation` | pintos/src/threads/synch.c:309-338 | a run from boot, with every yield of the functions called, to a state in which the thread_set_priority that ends lock_release leaves the thread below what it was given and below a thread that waits for its lock |
| `Mlfqs.LoadAvgBound` | pintos/src/threads/thread.c:84-92 | load_avg stays between 0 and the number of runnable threads, and no intermediate result overflows |
| `Mlfqs.RecentBound` | pintos/src/threads/thread.c:94-102 | after the decay recent_cpu is within its bound less one second of ticks, without overflow |
| `Mlfqs.RecentMaxFits` | pintos/src/threads/fixedpoint.h:6-16 | the bound on recent_cpu fits in 32 bits if and only if there are at most 545 runnable threads |
| `Mlfqs.PriorityFits` | pintos/src/threads/thread.c:104-116 | no intermediate result of the priority update overflows |
| `Mlfqs.LoadAvgAccurate` | pintos/src/threads/thread.c:84-92 | the new load_avg is 59/60 of the old plus 1/60 of the runnable threads, less than two units of the last place below |
| `Mlfqs.RecentAccurate` | pintos/src/threads/thread.c:94-102 | the new recent_cpu is (2 load_avg)/(2 load_avg + 1) recent_cpu + nice, within one unit plus a part in 2^14 of recent_cpu |
| `Mlfqs.PriorityAccurate` | pintos/src/threads/thread.c:104-116 | the priority is PRI_MAX - recent_cpu/4 - 2 nice rounded to the nearest integer and clamped to 0..PRI_MAX |
| `Mlfqs.ReportedExact` | pintos/src/threads/thread.c:510-522 | thread_get_load_avg and thread_get_recent_cpu return 100 times the value, rounded half away from zero, if and only if that does not overflow 32 bits |
| `KernelOps.Machine.ThreadUnblock` | pintos/src/threads/thread.c:322-339 | relinks the real ready list: after list_insert_ordered its nodes spell the ready list of the transition function, and all other lists are untouched |
| `KernelOps.Machine.NextToRun` | pintos/src/threads/thread.c:641-649 | the front of the ready list, sorted first unless MLFQS keeps it sorted, or the idle thread; it is the thread `KernelTheorems.NextIsHighest` speaks about |
| `KernelOps.Machine.Switch` | pintos/src/threads/thread.c:641-718 | on the linked ready list, sorts, unlinks the first thread and runs it: the scheduling transition |
| `KernelOps.Machine.ThreadYield` | pintos/src/threads/thread.c:397-411 | the running thread is linked in behind its equals before the switch; the yield transition, with the kernel invariant kept |
| `KernelOps.Machine.DownRound` | pintos/src/threads/synch.c:74-90 | one round of the loop takes the semaphore if and only if it is positive (`KernelExact.DownExact`), else links the thread into the waiters where `WaitOrder.BlockedPlace` says, blocks it and switches away |
| `KernelOps.Machine.TakeWaiter` | pintos/src/threads/synch.c:128-135 | sorts the waiters in place and unlinks the first: a waiter of the highest priority, on no list afterwards |
| `KernelOps.Machine.SemaphoreUp` | pintos/src/threads/synch.c:122-142 | the waiter sorted to the front moves from the waiters to the ready list by relinking, then the value rises: the transition of which `KernelTheorems.UpWakesHighest` says whom it wakes |
| `KernelOps.Machine.DonationWalk` | pintos/src/threads/synch.c:238-260 | the loop equals the recursive walk of depth nine that `Donation.WalkExact` speaks about, on any graph of waits |
| `KernelOps.Machine.EnterLock` | pintos/src/threads/synch.c:214-261 | the first half of lock_acquire: waiting for the lock, then the walk |
| `KernelOps.Machine.SortWaiters` | pintos/src/threads/synch.c:262-278 | the linked list of waiters is sorted in place, stably, and the priority at its front is reported |
| `KernelOps.Machine.FinishAcquire` | pintos/src/threads/synch.c:262-278 | the second half of lock_acquire over the sorted list of waiters; `Donation.AcquireRecomputes` says what the lock records |
| `KernelOps.Machine.LockAcquire` | pintos/src/threads/synch.c:214-278 | lock_acquire until it has the lock or blocks is the step whose donation `Donation.AcquireDonates` makes exact; it takes the lock if and only if its semaphore is positive, and keeps the kernel invariant |
| `KernelOps.Machine.LockRelease` | pintos/src/threads/synch.c:309-338 | lock_release as a whole: the lock has no holder and no thread holds it, no other lock changes, and the kernel invariant is kept |
| `KernelOps.Machine.TimerSleep` | pintos/src/devices/timer.c:94-105 | nothing for n <= 0; else the thread is linked into the sleepers in order of their ticks and another one runs, with the kernel invariant kept |
| `KernelOps.Machine.WakeSleepers` | pintos/src/devices/timer.c:178-203 | the loop over the front of the linked list of sleepers equals the recursive wake-up that `KernelRuns.WakeAllInv` speaks about |
| `KernelOps.Machine.UpdatePriorities` | pintos/src/threads/thread.c:104-116 | every thread, and no more, gets the priority of its usage, that is the one `MlfqsRules.IsPriority` describes |
| `KernelOps.Machine.UpdateUsage` | pintos/src/threads/thread.c:84-102 | load_avg is updated first and every thread decays with the new one |
| `KernelOps.Machine.ThreadTick` | pintos/src/threads/thread.c:174-210 | the MLFQS tick, with the real ready list sorted again after the priorities change; what is recomputed on which tick is `MlfqsRules.TickExact` |
| `KernelOps.Machine.TimerInterrupt` | pintos/src/devices/timer.c:178-203 | refines the interrupt transition and keeps the kernel invariant |
| `Bitmap.FirstGroupUnique` | pintos/src/lib/kernel/bitmap.c:289-310 | a scan has at most one right answer: the first group, or none |
| `Bitmap.Scanned` | pintos/src/lib/kernel/bitmap.c:289-310 | the first position from the start at which all bits have the value, and none only if there is none |
| `Bitmap.Bitmap.constructor` | pintos/src/lib/kernel/bitmap.c:78-94 | all bits are false |
| `Bitmap.Bitmap.Mark` | pintos/src/lib/kernel/bitmap.c:156-166 | in words of 32 bits, exactly one bit becomes true |
| `Bitmap.Bitmap.Reset` | pintos/src/lib/kernel/bitmap.c:169-179 | exactly one bit becomes false |
| `Bitmap.Bitmap.Flip` | pintos/src/lib/kernel/bitmap.c:184-194 | exactly one bit changes |
| `Bitmap.Bitmap.Test` | pintos/src/lib/kernel/bitmap.c:197-203 | the masked word tells the bit |
| `Bitmap.Bitmap.SetMultiple` | pintos/src/lib/kernel/bitmap.c:217-228 | exactly the bits of the range get the value |
| `Bitmap.Bitmap.Contains` | pintos/src/lib/kernel/bitmap.c:250-263 | true if and only if some bit of the range has the value |
| `Bitmap.Bitmap.Scan` | pintos/src/lib/kernel/bitmap.c:295-310 | returns the first group, or none if and only if there is none |
| `Bitmap.Bitmap.ScanAndFlip` | pintos/src/lib/kernel/bitmap.c:319-326 | the same, and exactly that group is flipped |
| `Storage.PatchedContent` | pintos/src/filesys/inode.c:257-318 | writing through sectors changes the file as writing to a flat array of bytes does |
| `Storage.SectorsExact` | pintos/src/filesys/inode.c:25-29 | as many sectors as the bytes need, and no more |
| `Storage.ByteToSectorExact` | pintos/src/filesys/inode.c:46-54 | the sector found holds the byte; there is none if and only if the position is past the end |
| `Storage.PatchedElsewhere` | pintos/src/filesys/inode.c:257-318 | sectors outside the file keep every byte |
| `Storage.PatchedOthers` | pintos/src/filesys/inode.c:257-318 | files with disjoint sectors keep their contents |
| `Storage.Device.ReadAt` | pintos/src/filesys/inode.c:200-250 | returns the bytes of the flat file from the offset on, as many as reach to its end, or fewer only when no bounce buffer can be had |
| `Storage.Device.WriteAt` | pintos/src/filesys/inode.c:257-318 | writes that many bytes and no others, none if writing is denied, and returns how many |
| `Codec.InodeRoundTrip` | pintos/src/filesys/inode.c:13-21 | decoding an encoded inode gives its start and length back |
| `Codec.EntryRoundTrip` | pintos/src/filesys/directory.c:17-22 | decoding an encoded directory entry gives it back |
| `Codec.InodeLayout` | pintos/src/filesys/inode.c:15-21 | start, length and magic number are the first three words of the sector, least significant byte first, and the rest is zero |
| `Codec.EntryLayout` | pintos/src/filesys/directory.c:17-22 | the sector, fifteen bytes of name and the flag, in this order |
| `Codec.NameFieldString` | pintos/src/filesys/directory.c:141-179 | the name read from a field is the name that was copied into it, whatever the rest of the field holds |
| `FileSysTheorems.FilesShareNothing` | pintos/src/filesys/inode.c:72-106 | after any sequence of operations every sector of every file that is named or open is marked in the free map, no two files share a sector, and no two in-memory inodes stand for the same one |
| `FileSysTheorems.FreedExactly` | pintos/src/filesys/inode.c:163-186 | an operation frees a sector if and only if it belongs to a file that was named or open before it and is neither afterwards |
| `FileSysTheorems.LifeOfFile` | pintos/src/filesys/inode.c:163-195 | over any run, as long as a file is named or open its sectors stay those of its inode and stay marked; the very operation that ends this, be it the removal or the last close, frees all of them |
| `FileSysTheorems.OwnerMeans` | pintos/src/filesys/inode.c:188-195 | a file is alive if and only if the directory names it or some open file is on it: removal of an open file takes effect at the last close |
| `FileSysTheorems.OpenHasFile` | pintos/src/filesys/inode.c:108-142 | an in-memory inode is there only while some open file refers to it |
| `FileSysTheorems.InodeStays` | pintos/src/filesys/inode.c:163-195 | no operation changes the inode sector of a file that is alive |
| `FileSysTheorems.NextLife` | pintos/src/filesys/filesys.c:45-91 | every operation respects the life cycle of all files and touches the data of a living file only by a write |
| `FileSysTheorems.ContentKept` | pintos/src/filesys/file.c:109-114 | no operation changes a byte of a living file except a write through a file open on it |
| `FileSysTheorems.WriteContent` | pintos/src/filesys/file.c:109-114 | a write changes the file as a write to a flat array, cut off at its end, and not at all while writing is denied |
| `FileSysTheorems.CreatedFile` | pintos/src/filesys/filesys.c:41-59 | a created file is found under its name, has the size asked for and is all zeros |
| `FileSysTheorems.InodeCreateZero` | pintos/src/filesys/inode.c:67-106 | inode_create leaves a file of that length, all zeros |
| `FileSysRuns.CreateInv` | pintos/src/filesys/filesys.c:45-59 | creating keeps the invariant, whichever allocation fails on the way; the directory gains the name or stays as it was |
| `FileSysRuns.OpenInv` | pintos/src/filesys/filesys.c:66-77 | opening keeps the invariant and opens the inode the directory has for the name; when it succeeds is `FileSysExact.OpenExact` |
| `FileSysExact.InodeOpenExact` | pintos/src/filesys/inode.c:111-142 | inode_open fails if and only if the inode is not in memory and there is no memory for it; and what it gives |
| `FileSysExact.OpenRootExact` | pintos/src/filesys/directory.c:54-58 | the root directory is opened if and only if memory for it can be had |
| `FileSysExact.OpenExact` | pintos/src/filesys/filesys.c:66-77 | filesys_open succeeds if and only if some slot of the directory has the name and the memory needed can be had, inodes that are open already needing none |
| `FileSysExact.RemoveExact` | pintos/src/filesys/filesys.c:83-91 | filesys_remove succeeds if and only if some slot has the name and memory and a bounce buffer can be had |
| `FileSysExact.SaveExact` | pintos/src/filesys/free-map.c:27-41 | writing the free map succeeds if and only if it fits its file and a bounce buffer can be had or is not needed |
| `FileSysExact.AllocateExact` | pintos/src/filesys/free-map.c:27-41 | free_map_allocate fails if and only if no run of free sectors is long enough or the map cannot be saved, and gives the first run |
| `FileSysExact.DirAddExact` | pintos/src/filesys/directory.c:141-179 | dir_add succeeds if and only if the name is valid and new, a slot is free and the entry can be written |
| `FileSysExact.CreateExact` | pintos/src/filesys/filesys.c:45-59 | filesys_create succeeds if and only if the name is valid and new, a slot is free, the sectors can be had and memory suffices |
| `FileSysMap.ReleaseMap` | pintos/src/filesys/free-map.c:44-50 | after free_map_release the map in its file is the map in memory |
| `FileSysMap.NextMap` | pintos/src/filesys/free-map.c:27-50 | so it is after every operation, if bounce buffers can be had |
| `FileSysMap.RunMap` | pintos/src/filesys/free-map.c:27-50 | and after every run of such operations |
| `FileSysMap.RebootInv` | pintos/src/filesys/free-map.c:53-62 | a disk whose free map is up to date can be mounted whatever was open: free_map_open reads the map there was, and the invariant holds |
| `FileSysMap.MountAgain` | pintos/src/filesys/filesys.c:17-42 | after formatting and any such run, a kernel that is started again without formatting has the same directory, contents and free map, and satisfies the invariant |
| `FileSysDeny.FlagExact` | pintos/src/filesys/file.c:118-142 | file_deny_write and file_allow_write set and clear the mark of that one file, and change nothing else but the count |
| `FileSysDeny.DeniedExact` | pintos/src/filesys/inode.c:322-339 | an inode refuses writes if and only if some open file denies them |
| `FileSysDeny.NextDenies` | pintos/src/filesys/file.c:118-142 | only file_allow_write or file_close of the file ends its denial |
| `FileSysDeny.DenyProtects` | pintos/src/filesys/file.c:113-129 | over any run, from when a file denies writes until it allows them or is closed, the file it is open on keeps every byte |
| `FileSysRuns.RemoveInv` | pintos/src/filesys/filesys.c:83-91 | removing keeps the invariant; exactly the entry of that name goes, or nothing |
| `FileSysRuns.ReopenInv` | pintos/src/filesys/file.c:38-42 | reopening keeps the invariant and opens the same inode |
| `FileSysRuns.AllowInv` | pintos/src/filesys/file.c:118-141 | denying and allowing writes keep the invariant: the inode counts the open files that deny |
| `FileSysRuns.CloseInv` | pintos/src/filesys/file.c:45-54 | closing keeps the invariant and the directory, and closes no other file |
| `FileSysRuns.WriteInv` | pintos/src/filesys/file.c:109-114 | writing keeps the invariant, the directory and all open files |
| `FileSysRuns.NextInv` | pintos/src/filesys/filesys.c:45-91 | every operation keeps the invariant |
| `FileSysRuns.RunInv` | pintos/src/filesys/filesys.c:45-91 | the invariant holds after every sequence of operations |
| `FileSysSteps.InodeCreateInv` | pintos/src/filesys/inode.c:72-106 | inode_create takes only free sectors and, when it fails, leaves the free map as it was |
| `FileSysSteps.InodeOpenInv` | pintos/src/filesys/inode.c:111-142 | one in-memory inode per sector: an open inode is found again and counted, a new one is read |
| `FileSysSteps.InodeCloseInv` | pintos/src/filesys/inode.c:163-186 | closing gives up one reference; without a pending removal nothing on disk changes |
| `FileSysSteps.EntryWrite` | pintos/src/filesys/directory.c:171-175 | writing a directory entry sets exactly that slot, or fails and changes nothing |
| `FileSysSteps.DirAddInv` | pintos/src/filesys/directory.c:141-179 | the first free slot gets the name, which was not there and fits; otherwise nothing changes |
| `FileSysSteps.DirRemoveInv` | pintos/src/filesys/directory.c:184-216 | exactly the entry of that name is erased, and its inode is marked as removed |
| `FileSysBoot.MapRoundTrip` | pintos/src/filesys/free-map.c:53-85 | reading the free map back from its file gives the map that was written |
| `FileSysBoot.FormatInv` | pintos/src/filesys/filesys.c:94-103 | whenever formatting any disk succeeds, the invariant holds and the free map on disk is the one in memory |
| `FileSysBoot.FormatExact` | pintos/src/filesys/filesys.c:94-103 | formatting a disk of at least two sectors succeeds if and only if its free map, one bit per sector in words, and three more sectors fit on it |
| `FileSysBoot.FormattedRuns` | pintos/src/filesys/filesys.c:94-103 | on such a disk, formatting and then any legal sequence of operations leaves the invariant |
| `FileSysOps.FileSystem.constructor` | pintos/src/filesys/free-map.c:12-20 | in a bitmap of words exactly the bits of the two system sectors are marked, and nothing is open |
| `FileSysOps.MapBytes` | pintos/src/lib/kernel/bitmap.c:355-360 | the bytes of the words, lowest first, are the packed bits, those past the end being off |
| `FileSysOps.FileSystem.SaveMap` | pintos/src/filesys/free-map.c:27-50 | the words of the bitmap are written into its file as `FileSysBoot.MapRoundTrip` reads them |
| `FileSysOps.FileSystem.AllocateSectors` | pintos/src/filesys/free-map.c:27-41 | the first free group is found and marked in the words of the bitmap and saved, or unmarked again if saving fails |
| `FileSysOps.FileSystem.ReleaseSectors` | pintos/src/filesys/free-map.c:44-50 | exactly the group, which is marked, is unmarked in the words of the bitmap, and the map is saved |
| `FileSysOps.FileSystem.ZeroSectors` | pintos/src/filesys/inode.c:93-100 | the loop fills exactly the sectors of the range with zeros |
| `FileSysOps.FileSystem.CreateInode` | pintos/src/filesys/inode.c:72-106 | refines inode_create on the disk of bytes |
| `FileSysOps.FileSystem.OpenInode` | pintos/src/filesys/inode.c:111-142 | the search of the open inodes and the fallback refine inode_open |
| `FileSysOps.FileSystem.CloseInode` | pintos/src/filesys/inode.c:163-186 | refines inode_close; at the last close of a removed file its inode sector and all data sectors were marked, as the assertion of free_map_release wants |
| `FileSysOps.FileSystem.ReleaseFile` | pintos/src/filesys/inode.c:176-182 | the two releases of a removed file, inode sector first, each of sectors still marked |
| `FileSysOps.FileSystem.Lookup` | pintos/src/filesys/directory.c:91-112 | the scanning loop finds the first entry of that name, and none only if there is none |
| `FileSysOps.FileSystem.FindSlot` | pintos/src/filesys/directory.c:159-169 | the scanning loop finds the first free slot, or the end of the directory |
| `FileSysOps.FileSystem.AddEntry` | pintos/src/filesys/directory.c:141-179 | refines dir_add |
| `FileSysOps.FileSystem.RemoveEntry` | pintos/src/filesys/directory.c:184-216 | refines dir_remove |
| `FileSysOps.FileSystem.OpenRootDir` | pintos/src/filesys/directory.c:54-58 | refines dir_open_root; on failure no reference is kept |
| `FileSysOps.FileSystem.MakeInode` | pintos/src/filesys/filesys.c:45-59 | the inode and then the entry, and success only if both were made |
| `FileSysOps.FileSystem.FinishCreate` | pintos/src/filesys/filesys.c:45-59 | on failure the inode sector is released, and the directory is closed either way |
| `FileSysOps.FileSystem.CreateFile` | pintos/src/filesys/filesys.c:45-59 | refines filesys_create and keeps the invariant |
| `FileSysOps.FileSystem.LookupInode` | pintos/src/filesys/directory.c:118-133 | the inode of the entry with that name, in whichever slot it is, with a new reference, never a removed one; none is found if and only if no slot has the name or no memory is left (`FileSysExact.OpenExact`) |
| `FileSysOps.FileSystem.OpenStruct` | pintos/src/filesys/file.c:17-34 | a new open file takes over the reference, or the reference is given up |
| `FileSysOps.FileSystem.OpenFile` | pintos/src/filesys/filesys.c:66-77 | refines filesys_open and keeps the invariant; it succeeds exactly when `FileSysExact.OpenExact` says |
| `FileSysOps.FileSystem.RemoveFile` | pintos/src/filesys/filesys.c:83-91 | refines filesys_remove and keeps the invariant |
| `FileSysOps.FileSystem.CloseFile` | pintos/src/filesys/file.c:45-54 | refines file_close and keeps the invariant |
| `Paging.ClockStops` | pintos/src/vm/frame.c:67-133 | with one mapped frame that is not pinned the clock stops when it has come past it, or, if that was accessed, one sweep later |
| `Paging.TwoSweeps` | pintos/src/vm/frame.c:67-133 | the clock finds a victim within two sweeps whenever some mapped frame is not pinned |
| `PagingInv.EvictInv` | pintos/src/vm/frame.c:67-133 | eviction keeps the invariant and every page, the victim included, still shows the bytes it showed |
| `PagingRuns.FrameAllocInv` | pintos/src/vm/frame.c:25-53 | a frame on a page of memory that no other frame uses, and no page shows anything else |
| `PagingRuns.LoadInv` | pintos/src/vm/page.c:61-134 | a fault or load brings in exactly the bytes the page showed while it was out; a fault gives its swap slot back and a load does not, and a frame that cannot be mapped goes back to the pool |
| `PagingRuns.DestroyInv` | pintos/src/vm/page.c:45-58 | exactly its frame leaves the table and goes back to the pool, its slot becomes free unless it is slot 0, and no other page is affected |
| `PagingRuns.UnmapWritesBack` | pintos/src/vm/mmap.c:104-149 | unmapping leaves in the file, at the page's part, the bytes the mapping last showed, and changes no other byte of any file |
| `PagingRuns.UnmapExact` | pintos/src/vm/mmap.c:104-149 | unmapping a page keeps the invariant and what every other page shows if and only if what is written back agrees with what every other page that shows the file from disk shows of the same bytes |
| `PagingRuns.MappedTwiceSees` | pintos/src/vm/mmap.c:104-149 | a file mapped twice, with one mapping written to: unmapping that one changes what the other shows |
| `PagingRuns.NextInv` | pintos/src/vm/page.c:45-171 | every step keeps the invariant, and a page shows something else only after a write to it |
| `PagingRuns.PagingInvisible` | pintos/src/vm/frame.c:67-133 | over any run a page shows what it showed at the start with the writes to it applied, whatever was evicted, swapped and loaded in between |
| `PagingRuns.RunInv` | pintos/src/vm/page.c:45-171 | the invariant holds after every sequence of steps |
| `PagingRuns.SlotsNotShared` | pintos/src/vm/swap.c:31-50 | after any run pages that are swapped out have marked swap slots, each its own |
| `SwapSlots.NextStray` | pintos/src/vm/page.c:45-134 | a step leaves a marked slot without an owner if and only if it destroys, or loads by vm_load_page, a page that is swapped out to slot 0; and such a slot stays marked for ever |
| `SwapSlots.RunStray` | pintos/src/vm/swap.c:31-50 | over every run the marked slots without an owner are those there were, and slot 0 if some step has forgotten it |
| `SwapSlots.SlotsExact` | pintos/src/vm/swap.c:31-50 | from the start, after every run, a slot is marked if and only if a page owns it, but for slot 0, which also stays marked once a step has forgotten it |
| `SwapSlots.SlotLost` | pintos/src/vm/page.c:55-56 | a run of six steps from the start after which the only slot is marked and no page has it |
| `PagingRuns.HandStays` | pintos/src/vm/frame.c:55-64 | the clock hand stays on a frame of the table, as the next eviction needs, if and only if the step does not give back the very frame it points to |
| `PagingRuns.HandLost` | pintos/src/vm/frame.c:55-64 | a state of the invariant in which destroying a page leaves the hand on a frame that is gone |
| `PagingRuns.BootInv` | pintos/src/vm/frame.c:18-23 | the empty frame table and swap satisfy the invariant |
| `PagingOps.SwapDevice.SwapWrite` | pintos/src/vm/swap.c:53-59 | eight sectors hold the page afterwards, and no other sector changes |
| `PagingOps.SwapDevice.SwapRead` | pintos/src/vm/swap.c:62-68 | returns the page that the slot holds |
| `PagingOps.OtherSlotData` | pintos/src/vm/swap.c:53-68 | a write to one slot leaves the page of every other slot |
| `PagingOps.Memory.Advance` | pintos/src/vm/frame.c:78-97 | the loop returns, within two sweeps, the victim of the second-chance rule (`Eviction.SecondChance`), with the hand behind it and the marks of the passed frames cleared |
| `Eviction.SecondChance` | pintos/src/vm/frame.c:67-97 | the victim is the first frame from the hand that can be evicted and has not been accessed, and exactly those passed lose their marks; if all have been accessed it is the first, and all lose theirs |
| `Eviction.SomeChosen` | pintos/src/vm/frame.c:67-97 | there is a victim if and only if some frame of the table can be evicted |
| `Eviction.EvictExact` | pintos/src/vm/frame.c:67-133 | eviction takes that page out of its frame; it fails if and only if the page needs a swap slot and none is free; a clean page is dropped, any other goes to its own slot or the first free one; nothing changes for other pages |
| `Eviction.EvictWhen` | pintos/src/vm/frame.c:67-133 | eviction succeeds if and only if there is such a victim that does not lack a slot |
| `Eviction.AllocExact` | pintos/src/vm/frame.c:25-53 | while a page is free it is taken and nothing is evicted; otherwise a frame is had if and only if one can be evicted |
| `FrameAccounts.MemoryExact` | pintos/src/vm/frame.c:25-65 | from the start, after every run, each page of memory is free or in exactly one frame: none is lost and none is shared |
| `FrameAccounts.NextConserves` | pintos/src/vm/frame.c:25-65 | no step loses a page of memory |
| `FrameAccounts.LoadExact` | pintos/src/vm/page.c:98-134 | a loaded page is in the new frame, last in the table, pinned if and only if asked for, neither accessed nor changed; one that cannot be mapped stays out and its frame goes back |
| `FrameAccounts.PinExact` | pintos/src/vm/page.c:61-134 | vm_load_page with pinning leaves the page in memory, and pinned if and only if it was not there before or was pinned already |
| `FrameAccounts.PinMissed` | pintos/src/vm/page.c:95-96 | a state that satisfies the invariant in which a page to be pinned is in memory, is not pinned, and is evicted by the next fault |
| `FrameAccounts.NextPinned` | pintos/src/vm/frame.c:78-97 | no step but unpinning, destroying or unmapping it takes a pinned page out of its frame |
| `FrameAccounts.PinnedStays` | pintos/src/vm/frame.c:78-97 | over any run a pinned page stays in memory until one of these happens |
| `FrameAccounts.UseExact` | pintos/src/vm/frame.c:90-95 | a user access sets the accessed mark, a write the dirty mark too, of that page only |
| `FrameAccounts.UnpinExact` | pintos/src/vm/page.c:156-171 | unpinning makes the page a candidate for eviction again and changes nothing else |
| `FrameAccounts.AddExact` | pintos/src/vm/page.c:38-43 | a page that is made is not in memory and has neither mark |
| `PagingOps.Memory.WriteBack` | pintos/src/vm/frame.c:106-131 | nothing for a clean page; else a slot is found in the bitmap of words, or the page keeps its own, and the eight sectors of that slot hold the page afterwards and no other sector changes |
| `PagingOps.Memory.SwapAlloc` | pintos/src/vm/swap.c:31-40 | the first free slot, marked in the bitmap of words |
| `PagingOps.Memory.ToSlot` | pintos/src/vm/swap.c:53-59 | through the sectors of the device, exactly that slot of swap becomes the page |
| `PagingOps.Memory.FreeSlot` | pintos/src/vm/swap.c:43-50 | exactly the slot of that sector is unmarked |
| `PagingOps.Memory.Eviction` | pintos/src/vm/frame.c:67-133 | refines eviction and keeps the invariant |
| `PagingOps.Memory.MapFile` | pintos/src/vm/mmap.c:64-99 | succeeds if and only if all entries can be allocated; then exactly the file's pages are added, else the loop backs out and nothing is |
| `PagingOps.MappingAdds` | pintos/src/vm/mmap.c:64-99 | the mapping adds exactly one entry per page of the file, each with its part |
| `PagingOps.MappingMade` | pintos/src/vm/mmap.c:18-102 | what is added is a mapping of the whole file, page parts adjacent and complete, that can be unmapped without harm whatever else maps the file |
| `PagingOps.RolledBack` | pintos/src/vm/mmap.c:67-81 | taking the new entries out again gives the old page table |
| `PagingOps.Memory.UnmapPage` | pintos/src/vm/mmap.c:104-149 | one round refines unmapping one page |
| `PagingOps.Memory.UnmapFile` | pintos/src/vm/mmap.c:104-149 | the loop leaves in the file byte for byte what the mapping showed |
| `PagingOps.UnmapWhole` | pintos/src/vm/mmap.c:104-149 | unmapping a whole file whose pages can be unmapped without harm to others: it holds what the mapping showed, no other file changes, and all other pages show what they showed |
| `Heap.DescFor` | pintos/src/threads/malloc.c:100-104 | the smallest block size that satisfies the request, none only if all are too small |
| `HeapInv.MallocInv` | pintos/src/threads/malloc.c:89-154 | for every size, malloc keeps the invariant and hands out a new block, or none and changes nothing; which of the two is `HeapExact.MallocExact` |
| `HeapExact.MallocExact` | pintos/src/threads/malloc.c:89-154 | malloc gives no block if and only if none was asked for, or the free list of the size and the page pool are exhausted, or no run of free pages is long enough |
| `HeapExact.SmallBlock` | pintos/src/threads/malloc.c:100-154 | a small block has the smallest sufficient size; it is the first of the free list and takes no page, or else the first block of the first free page |
| `HeapExact.BigBlock` | pintos/src/threads/malloc.c:105-120 | a big block takes the first run of free pages that is long enough |
| `HeapExact.PagesExact` | pintos/src/threads/malloc.c:105-110 | how many pages that is, in 32-bit arithmetic |
| `HeapExact.ReallocExact` | pintos/src/threads/malloc.c:194-214 | realloc gives no block if and only if none was asked for or malloc has none for the new size |
| `HeapAccounts.FreeUndoes` | pintos/src/threads/malloc.c:89-265 | free undoes malloc: freeing a block just had restores pages, arenas, free lists in their order and blocks in use |
| `HeapAccounts.ReuseFreed` | pintos/src/threads/malloc.c:89-265 | malloc undoes free: a block freed while its arena stays is the next one given out for its size, and the heap is as before |
| `HeapAccounts.FreeFills` | pintos/src/threads/malloc.c:218-265 | every byte of a freed block becomes 0xcc |
| `HeapAccounts.NextForeign` | pintos/src/threads/malloc.c:89-265 | no call changes which pages are marked without being part of an arena |
| `HeapAccounts.MarkedExact` | pintos/src/threads/malloc.c:89-265 | after any calls a page is marked if and only if it is part of an arena |
| `HeapAccounts.NothingLeaks` | pintos/src/threads/malloc.c:218-265 | once every block has been freed, every page is free, whatever the calls were |
| `HeapInv.FreeInv` | pintos/src/threads/malloc.c:218-264 | free keeps the invariant and ends exactly that block |
| `HeapTheorems.BlockBounds` | pintos/src/threads/malloc.c:285-294 | a block lies behind the header and inside the pages of its arena and is as large as malloc granted |
| `HeapTheorems.BlocksDisjoint` | pintos/src/threads/malloc.c:12-36 | two blocks in use have no byte in common |
| `HeapTheorems.FreeDisjoint` | pintos/src/threads/malloc.c:57-62 | a block in use has no byte in common with any block on a free list |
| `HeapTheorems.HeaderDisjoint` | pintos/src/threads/malloc.c:49-55 | a block in use has no byte in common with any arena header |
| `HeapTheorems.PageGoesBack` | pintos/src/threads/malloc.c:218-264 | freeing a block gives its page back if and only if no other block of the page is in use |
| `HeapTheorems.SomeoneElse` | pintos/src/threads/malloc.c:241-253 | every small arena has a block in use, so none is kept for nothing |
| `HeapTheorems.FreeKeeps` | pintos/src/threads/malloc.c:218-264 | every other block in use keeps its bytes and its size |
| `HeapTheorems.MallocKeeps` | pintos/src/threads/malloc.c:89-154 | for every size, every block in use keeps its place, size and bytes, and shares none with the new one |
| `HeapTheorems.MallocHolds` | pintos/src/threads/malloc.c:105-120 | the block returned is as large as asked for if and only if size plus header does not exceed 2^32 |
| `HeapTheorems.WrappedRequest` | pintos/src/threads/malloc.c:105-120 | a request for 2^32 - 1 bytes is given 4084 |
| `HeapTheorems.ReallocInv` | pintos/src/threads/malloc.c:194-214 | realloc gives a new block with the bytes both have in common; or, when memory is short, none, and leaves the old block as it is |
| `HeapTheorems.ReallocKeeps` | pintos/src/threads/malloc.c:194-214 | every other block in use keeps its bytes |
| `HeapTheorems.CopyRoom` | pintos/src/threads/malloc.c:194-214 | what realloc copies fits in the new block if and only if the size did not wrap around or the old block is no larger than what a wrapped size is given |
| `HeapTheorems.CopyTooLong` | pintos/src/threads/malloc.c:194-214 | with three pages of memory, a block of 5000 bytes and a new size of 2^32 - 1, realloc copies 8180 bytes to a block of 4084 |
| `HeapTheorems.NextInv` | pintos/src/threads/malloc.c:89-264 | every call, and every write inside a block, keeps the invariant |
| `HeapTheorems.RunInv` | pintos/src/threads/malloc.c:89-264 | the invariant holds after every sequence of calls |
| `HeapTheorems.StartInv` | pintos/src/threads/malloc.c:71-85 | the state after malloc_init satisfies the invariant |
| `HeapTheorems.AllocatorSafe` | pintos/src/threads/malloc.c:12-36 | after any sequence of calls from the start, blocks in use are disjoint, inside memory and as large as malloc granted, every free count is right and every small arena has a block in use |
| `HeapOps.Allocator.constructor` | pintos/src/threads/malloc.c:71-85 | the loop makes the descriptors of 16 to 1024 bytes, with empty lists |
| `HeapOps.Allocator.PageAlloc` | pintos/src/threads/palloc.c:70-101 | the first group of free pages is found and marked in the words of the pool's bitmap, or none if there is none |
| `HeapOps.Allocator.InitArena` | pintos/src/threads/malloc.c:137-146 | the loop puts each block of the page at the end of the free list once |
| `HeapOps.Allocator.Allocate` | pintos/src/threads/malloc.c:89-154 | refines malloc, whose result `HeapExact.MallocExact` and `HeapExact.SmallBlock` determine, and keeps the invariant |
| `HeapOps.Allocator.Release` | pintos/src/threads/malloc.c:218-264 | refines free and keeps the invariant |
| `HeapOps.Allocator.TakeApart` | pintos/src/threads/malloc.c:241-253 | the loop takes every block of the arena off the list and gives the page back |
| `HeapOps.Allocator.PageFree` | pintos/src/threads/palloc.c:117-142 | exactly those pages, which were in use, are filled and unmarked in the words of the pool's bitmap |
| `HeapOps.Allocator.Resize` | pintos/src/threads/malloc.c:194-214 | refines realloc and keeps the invariant |
| `HashTable.TurnOffTop` | pintos/src/lib/kernel/hash.c:329-333 | turning off the lowest bit gives zero for a power of two and otherwise keeps the highest bit |
| `HashTable.PowerTest` | pintos/src/lib/kernel/hash.c:336-340 | the bit trick is true if and only if the number is a power of two |
| `HashTable.PowerBelow` | pintos/src/lib/kernel/hash.c:364-373 | the loop ends with the largest power of two that is not above the number |
| `HashTable.SlotInRange` | pintos/src/lib/kernel/hash.c:305-310 | masking the hash value selects one of the buckets, the value modulo their number |
| `HashTable.BestLoad` | pintos/src/lib/kernel/hash.c:342-373 | the size aimed at is at least four buckets, and from eight elements on two to four elements per bucket |
| `HashTable.HashInit` | pintos/src/lib/kernel/hash.c:24-42 | an empty table, or none if and only if its first buckets cannot be allocated |
| `HashTable.Hash.FindBucket` | pintos/src/lib/kernel/hash.c:305-310 | the bucket number is in range |
| `HashTable.Hash.Present` | pintos/src/lib/kernel/hash.c:314-326 | an element can only be in the bucket its hash value selects |
| `HashTable.Hash.Find` | pintos/src/lib/kernel/hash.c:131-135 | returns the element with that key, and none if and only if there is none |
| `HashTable.Hash.MoveBucket` | pintos/src/lib/kernel/hash.c:400-409 | all elements of a bucket end up in their new buckets, no more and no fewer |
| `HashTable.Hash.MoveAll` | pintos/src/lib/kernel/hash.c:387-410 | the new table holds exactly the old elements, each where it belongs |
| `HashTable.Hash.Rehash` | pintos/src/lib/kernel/hash.c:351-413 | the contents stay the same, and the size becomes the best one unless it cannot be allocated |
| `HashTable.Hash.InsertElem` | pintos/src/lib/kernel/hash.c:416-421 | the contents gain exactly that element |
| `HashTable.Hash.RemoveElem` | pintos/src/lib/kernel/hash.c:424-429 | the contents lose exactly that element |
| `HashTable.Hash.Insert` | pintos/src/lib/kernel/hash.c:98-110 | a finite map: the element is added unless its key is there, and what was there is returned |
| `HashTable.Hash.Replace` | pintos/src/lib/kernel/hash.c:114-127 | the element takes the place of whatever had its key, which is returned |
| `HashTable.Hash.Delete` | pintos/src/lib/kernel/hash.c:144-154 | whatever has the key goes and is returned |
| `Sorting.RootIsMax` | pintos/src/lib/stdlib.c:93-123 | in a heap nothing in a subtree is above its root |
| `Sorting.SiftStep` | pintos/src/lib/stdlib.c:96-123 | after the swap with the larger child only the child may be out of order |
| `Sorting.Heapify` | pintos/src/lib/stdlib.c:96-123 | the subtree becomes a heap, by a permutation inside it |
| `Sorting.BuildHeap` | pintos/src/lib/stdlib.c:142-144 | the whole array becomes a heap, with the same elements |
| `Sorting.MoveMax` | pintos/src/lib/stdlib.c:146-151 | the maximum of the heap joins the sorted part and the rest is a heap again |
| `Sorting.Sort` | pintos/src/lib/stdlib.c:131-152 | any array is left sorted, with the same elements as many times each |
| `Sorting.BinarySearch` | pintos/src/lib/stdlib.c:184-207 | finds an element equal to the key in a sorted array, and none if and only if there is none |
| `Elf.PageParts` | pintos/src/userprog/process.c:481-483 | the masks split an address into page and offset |
| `Elf.ValidMeans` | pintos/src/userprog/process.c:530-571 | in 32-bit arithmetic, a segment is accepted if and only if offsets agree, it is in the file, its file part fits in it, it is not empty, and it lies between the first page and the kernel without wrapping around |
| `Elf.SizesExact` | pintos/src/userprog/process.c:477-507 | for an accepted segment the two sizes make whole pages and are exact |
| `Elf.RecordAt` | pintos/src/userprog/process.c:587-637 | what the record of each page says: its address, its share of the file, and its offset in 32-bit arithmetic |
| `Elf.PagesCovered` | pintos/src/userprog/process.c:573-637 | the records cover every page of the rounded region exactly once, in order |
| `Elf.SegmentImage` | pintos/src/userprog/process.c:573-637 | for every byte of an accepted segment, the record of its page can be read in full if and only if the file reaches to the end of its share, and then shows the file's byte below the file size and zero above it |
| `Elf.AllPagesInFile` | pintos/src/userprog/process.c:573-637 | every page can be read if and only if the file contains the whole file part of the segment |
| `Elf.WithLookup` | pintos/src/userprog/process.c:587-637 | a lookup in the page table finds the very record that was put in for that address |
| `Elf.LoadedImage` | pintos/src/userprog/process.c:573-637 | the page table load_segment leaves has, at the page of every byte of the segment, a record that shows the image there, or that cannot be loaded because the file ends too soon; and all other pages keep theirs |
| `Elf.LoadSegment` | pintos/src/userprog/process.c:587-637 | succeeds if and only if every record can be allocated and its page is free; on failure exactly the records before it are in |
| `Ustar.StripIdempotent` | pintos/src/lib/ustar.c:65-73 | a stripped name has nothing left to strip |
| `Ustar.StripExact` | pintos/src/lib/ustar.c:65-73 | each leading "/", "./" and "../" goes, and what is left when there is none stays, but for "" and "..", which become "." |
| `Ustar.ParseExact` | pintos/src/lib/ustar.c:129-162 | a field is accepted if and only if it is octal digits, at least one, up to a space or zero byte, with a 32-bit value; and that is the result |
| `Ustar.AcceptExact` | pintos/src/lib/ustar.c:181-227 | a header is accepted if and only if magic, version, checksum, name, type and size are all right, and is the end if and only if it is all zeros |
| `Ustar.MadeFields` | pintos/src/lib/ustar.c:82-118 | the fields of a made header that parsing does not look at: mode, user, group, time, link name, devices, prefix |
| `Ustar.ChecksumExact` | pintos/src/lib/ustar.c:36-55 | the checksum is the sum of all bytes of the header with eight spaces in place of its own field |
| `Ustar.StripPrefixes` | pintos/src/lib/ustar.c:65-73 | the loop comes to an end and leaves what `Ustar.StripExact` describes |
| `Ustar.ParseOctal` | pintos/src/lib/ustar.c:129-162 | the loop reads digits up to a space or zero byte and rejects everything else, overflow included, as `Ustar.ParseExact` says exactly |
| `Ustar.OctalRoundTrip` | pintos/src/lib/ustar.c:129-162 | parsing the octal digits of a 32-bit number gives it back |
| `Ustar.Checksum` | pintos/src/lib/ustar.c:36-54 | the sum of all bytes, the checksum field counting as spaces |
| `Ustar.SumIgnoresField` | pintos/src/lib/ustar.c:36-54 | the checksum does not depend on its own field |
| `Ustar.HeaderRoundTrip` | pintos/src/lib/ustar.c:82-118 | a header can be made if and only if the stripped name has at most 99 characters, and then parses to that name, type and size |
| `Ustar.OneByteDetected` | pintos/src/lib/ustar.c:181-227 | changing any one byte outside the checksum field of an accepted header makes it rejected |
| `Ustar.AcceptedName` | pintos/src/lib/ustar.c:181-227 | every accepted name is nonempty and fully stripped |
| `Ustar.IsAllZeros` | pintos/src/lib/ustar.c:166-173 | true if and only if every byte is zero |
| `Ustar.Make` | pintos/src/lib/ustar.c:82-118 | filling in the header, summing it and filling in the checksum makes the header `Ustar.HeaderRoundTrip` parses |
| `Ustar.Parse` | pintos/src/lib/ustar.c:181-227 | the checks in the order of the code give the result or the first error |
| `Printf.SignAndPrefix` | pintos/src/lib/stdio.c:483-499 | which sign and which base prefix come before the digits, for every value, base and flags |
| `Printf.LeadingZeros` | pintos/src/lib/stdio.c:501-524 | the digits have no leading zero but those the precision asks for, one digit at least and 63 at most, and one zero for the # flag in base 8 if there is none |
| `Printf.FormatInteger` | pintos/src/lib/stdio.c:469-547 | every store stays inside the 64 characters of the buffer, whatever value, base, flags, width and precision; the output is the one the lemmas below speak about |
| `Printf.DigitsInto` | pintos/src/lib/stdio.c:501-513 | at most 29 characters: 22 digits and 7 commas |
| `Printf.ZerosInto` | pintos/src/lib/stdio.c:515-524 | zeros up to the precision but never past the buffer |
| `Printf.OutputDigits` | pintos/src/lib/stdio.c:543-544 | the buffer comes out in reverse |
| `Printf.DigitsRead` | pintos/src/lib/stdio.c:501-524 | for every base, flag and precision the digits printed, read in that base, give the value back |
| `Printf.CommaPlaces` | pintos/src/lib/stdio.c:506-513 | a comma stands after every three decimal or octal and every four hexadecimal digits from the right, and nowhere else |
| `Printf.DigitCase` | pintos/src/lib/stdio.c:138-141 | digits past nine are small letters for %x and capitals for %X |
| `Printf.Padding` | pintos/src/lib/stdio.c:526-546 | the padding leaves the text unchanged: spaces left, spaces right, or zeros after sign and prefix; the width is met exactly unless both flags are given |
| `Printf.ParsedWidth` | pintos/src/lib/stdio.c:372-416 | a conversion as the parser leaves it meets its width if and only if it does not combine the zero flag with a negative width, no precision and a text shorter than the width |
| `Printf.NegativeWidth` | pintos/src/lib/stdio.c:378-416 | "%0*d" with width -10 prints 5 with nine zeros before it and nine spaces behind |
| `Printf.ParsedExact` | pintos/src/lib/stdio.c:372-416 | what the parser leaves of flags, width and precision: the sign and prefix asked for, grouping, the width's magnitude, and the zero flag if and only if given without minus flag and precision |
| `Printf.DecimalIs` | pintos/src/lib/stdio.c:469-547 | "%d" prints a minus sign if need be and the decimal digits |
| `Printf.PrintfOctal` | pintos/src/lib/stdio.c:469-547 | "%0no" of a number with at most n octal digits prints exactly n of them, as archive headers need |
| `Printf.AtoiLoop` | pintos/src/lib/stdlib.c:9-41 | the loop, which skips blanks, reads a sign and accumulates negatively, reads what `Printf.AtoiExact` says |
| `Printf.NoOverflow` | pintos/src/lib/stdlib.c:30-37 | as long as the exact number is at least INT_MIN, no step of the accumulation overflows |
| `Printf.AtoiExact` | pintos/src/lib/stdlib.c:9-41 | atoi gives the exact number whenever that is between INT_MIN and INT_MAX, INT_MIN included |
| `Printf.AtoiPrintf` | pintos/src/lib/stdlib.c:9-41 | atoi reads back what "%d" prints, for every int |
| `Printf.Sink.Put` | pintos/src/lib/stdio.c:45-52 | a character is stored only while there is room before the terminator, and always counted |
| `Printf.Vsnprintf` | pintos/src/lib/stdio.c:25-42 | stores the longest prefix for which there is room, and its terminator, touches nothing past the buffer, and returns the full length |
| `Printf.RoomExact` | pintos/src/lib/stdio.c:25-42 | the room is all but one of the characters of the buffer if and only if the size is at most 2^31, above which max_length is negative |

## Left out

- Context switching, interrupt hardware, device drivers, boot before thread_start, and the loader: below the level of the model.
- Condition variables (cond_wait, cond_signal, cond_broadcast): they would add a second kind of wait list.
- Kernel steps are those between points where interrupts can occur; thread_set_priority, lock_release and thread_set_nice are followed by their yield as a step of its own. Interrupts are on while thread_set_nice sorts the ready list (threads/thread.c:491-501) and while lock_release changes and sorts the list of locks (threads/synch.c:321-333); each is one atomic step here.
- A semaphore's value at UINT_MAX is not raised further, and the 64-bit tick count does not run over; both would take longer than any run.
- A thread that exits still holding a lock is not modelled.
- The donation rule is proved at the walk and made exact there; it is no invariant of whole runs, because lock_try_acquire and later changes of priority do not update what locks and threads have recorded.
- Donation.ReleaseRecomputes: says what a release recomputes, not that priorities are covered afterwards, for the same reason: what the remaining locks have recorded can be out of date.
- KernelOps.Machine.DownRound: is one round of the loop of sema_down; that the loop ends is not promised by the code either.
- KernelOps.Machine.LockAcquire: keeps the list of locks a thread holds as a sequence, not as linked nodes.
- KernelOps.Machine.LockRelease: the same.
- ThreadLists.Lists.constructor: gives a thread one list element; struct thread has two, elem and sleep_elem, of which at most one is on a list.
- KernelOps.Machine.constructor: starts from given lists; creating threads, semaphores and locks, thread_exit and lock_try_acquire are steps of the transition system only.
- KernelRuns.BootInv: starts from the state thread_start leaves, with one thread and the idle thread.
- list_reverse, list_unique, list_max and list_min: easier than the sort.
- File-system operations are atomic, as the one lock around them makes them; disk transfers do not fail.
- FileSysOps.FileSystem.Lookup: directory reads find a bounce buffer, as filesys/directory.c:163-165 expects of them; all other allocations may fail.
- FileSysOps.FileSystem.FindSlot: the same.
- FileSysTheorems.FilesShareNothing: sectors of living files are marked, but marked sectors may belong to no file, because filesys_create does not release the data sectors when the directory entry cannot be made.
- FileSysMap.RunMap: is about operations that find bounce buffers; free_map_release ignores that it could not write the map.
- MlfqsRules.TickExact: is about at most 545 threads running or ready, as Mlfqs.RecentMaxFits requires; beyond that 32-bit numbers overflow.
- MlfqsRules.SetNiceExact: the same, and niceness from -20 to 20.
- WaitOrder.Fifo: is about runs without MLFQS; under it WaitOrder.BlockedPlace says exactly where a thread is put, and WaitOrder.OutOfTurn shows a later thread overtaking.
- FileSysBoot.FormatInv: formatting has memory for its own buffers.
- File positions and reads through struct file, offsets below zero, subdirectories and files that grow: the code has one flat directory and files of fixed size.
- Paging steps are atomic, and eviction starts with the clock hand on a frame of the table; PagingRuns.HandStays says exactly which steps leave it elsewhere. A full swap device, on which the code panics, and a page that cannot be installed during a fault, on which it kills the process, leave the model.
- PagingOps.Memory.UnmapFile: requires that no page of the mapping does harm to another mapping when it is unmapped, which PagingRuns.UnmapExact makes exact, and that file writes are complete.
- PagingOps.UnmapWhole: the same.
- PagingOps.Memory.MapFile: does not model the checks of the address range; pages have identifiers that are new, in place of addresses looked up in a hash table.
- The allocator's addresses count from the start of the kernel pool; headers and free-list links are kept beside the bytes, which HeapTheorems.FreeDisjoint and HeapTheorems.HeaderDisjoint justify. The locks in malloc and calloc are not modelled, nor is the user pool.
- HeapTheorems.ReallocInv: requires that what is copied fits in the new block, since otherwise realloc writes over other memory; HeapTheorems.CopyRoom says exactly when it fits.
- HeapTheorems.ReallocKeeps: requires the same.
- HeapOps.Allocator.Resize: requires the same.
- HeapTheorems.NextInv: requires the same of calls of realloc, and nothing of the sizes of other calls.
- HeapTheorems.RunInv: the same.
- HeapTheorems.AllocatorSafe: the same.
- hash_clear, hash_apply, iteration over a hash table and the hash functions themselves are not modelled.
- Elf.SegmentImage: is about files below 2^30 bytes; devices/ide.c:292-304 refuses larger disks. The other header checks of load and the building of the stack are not modelled.
- Parsing of format strings, but for what becomes of the flags, width and precision read; string conversions, hex dumps and the console.
- Printf.ParsedWidth: a width of INT_MIN, which cannot be negated, and widths or precisions written with digits that overflow an int are not modelled.
- Printf.Vsnprintf: requires an output shorter than 2^31 characters, which the int that counts it can hold.
- Printf.AtoiPrintf: texts of numbers that do not fit in an int are not covered.
- process_execute, process_wait, process_exit and the dispatch of system calls.
