# RT-Thread kernel: a verified model

RT-Thread is a small real-time kernel.  This project models its single-core configuration with 32
priorities, 4-byte alignment and signals off, and proves what the kernel promises about its runs.
A region between `rt_hw_interrupt_disable` and `rt_hw_interrupt_enable` is one step, and a run is
any interleaving of such steps.  A call with several regions is several steps where another one can
come between them: a detach or delete, a start-up, a resume, a suspend, a timeout, a tick, a send, a
receive, an allocation from the slab allocator.

Most topics come in two parts.  A specification module has the state as a value, the operations as
functions, an invariant, and lemmas about all runs.  A second module has the state as the source
keeps it (bitmaps, wrapped ticks, linked slots, block headers, page tables) in a class, whose methods
follow the source step by step and are proved to do what the specification says.

| topic | specification | as the source does it |
|---|---|---|
| scheduler and threads | `SchedulerSpec`, `SchedulerEffects` | `Scheduler`, `TwoLevelTable`, with `Bits` |
| timers | `TimerSpec`, `TimerEffects`, `SkipRows` | `Timers` |
| waiting and waking | `Gates`, `WaitOrder` | |
| message queue, mailbox, memory pool | `MessageQueueSpec`, `MessageQueueEffects`, `MailboxSpec`, `MemPoolSpec` | `MessageQueue`, `Mailbox`, `MemPool` |
| semaphore, mutex, event | `SemaphoreSpec`, `MutexSpec`, `MutexEffects`, `EventSpec` | `Semaphore`, `Mutexes`, `Event` |
| small-memory heap, memory heap | `HeapChain`, `FreeList` | `SmallMem`, `Memheap` |
| pages and slab zones | `Pages`, `SlabZones`, `SlabSpec`, `SlabSteps` | `Pages`, `Slab` |
| worst-case stack, ROM file system image | `StackUsage`, `Romfs` | the classes and methods there |

`dafny verify dfyconfig.toml` checks everything.

## Where the code and its promise part

- Small-memory heap: with `0 < mem_size_aligned < 12` the search of `rt_malloc` never ends, because
  its bound is an unsigned difference that wraps (`SmallMem.TinyHeapSearchNeverEnds`).  The class
  `SmallMem.Heap` is for regions of at least 12 bytes, and there the search ends.
- Small-memory heap: the two places in `plug_holes` that move `lfree` are never needed
  (`SmallMem.LowestNotAbsorbed`).
- Threads: `rt_thread_detach` and `rt_thread_delete` unlink a thread in one critical section and mark
  it closed later, and a timeout in between queues it again.  `SchedulerSpec.DetachWindow` shows the
  closed thread in a ready list, `SchedulerSpec.EndClosePlaced` says exactly when that is so, and all
  other threads stay where they belong.
- Mutexes: priority inheritance fails when a thread holds two mutexes
  (`MutexSpec.NestingBreaksInheritance`), and also when a boost puts a wait list out of order and its
  head is not the most urgent waiter (`MutexSpec.UnorderedHandOver`).
  `MutexSpec.ReleaseKeepsUrgent`, `MutexSpec.WaitKeepsUrgent` and `MutexSpec.WaitKeepsOrder` say
  exactly when one step keeps urgency and order, and `MutexSpec.InheritanceHolds` proves inheritance
  for runs without nesting.
- Memory heap: a request for exactly the available size is refused although a block of that size may
  be free (`Memheap.Heap.Alloc`, and `Memheap.ExactSizeIsRefused` for 12 of 60 bytes).
- Memory heap: the initial available size wraps around for a pool without room for two headers
  (`Memheap.TinyPoolWraps`), which `rt_memheap_init` accepts; `Memheap.Heap` is for larger ones.
- Memory pool: `rt_mp_init` accepts a region smaller than one block and then writes before it
  (`MemPool.LastLink`, and `MemPool.LastLinkBeforePool` for eight bytes).
- Slab: the comments promise that allocations of a power of two are aligned to it.  That holds up to the
  page size, and beyond it only if the first page to be used happens to be aligned
  (`SlabSpec.PowerOf2Aligned`).  Heaps up to 64 MB serve such requests with whole pages
  (`SlabSpec.UnalignedLarge`), larger ones serve 8 kB from a zone (`SlabSpec.UnalignedSmall`).  The
  comments also promise that `malloc(0)` is not null; the code returns null (`SlabSpec.MallocFails`).
- Threads: `rt_thread_resume` tests the status before it disables interrupts.  A thread that is closed in
  between is queued to run again (`SchedulerSpec.ClosedComesBack`, `SchedulerSpec.ClosedRunsAgain`);
  `SchedulerSpec.LateResumeSame` says exactly when the stale test does no harm.  `rt_thread_suspend` does
  the same, and may take a thread off the list of an object (`SchedulerSpec.LatePauseDrops`).
- Waking: if a thread that has been woken is deleted before it runs, a wake-up may be lost
  (`MemPoolSpec.DeletedWaiterStrandsBlock`); `Gates.DeletingWoken` says exactly when.
- Timers: a periodic timer with a period of zero, which `rt_timer_start` and `rt_timer_control` accept,
  makes the next tick last for ever (`TimerSpec.StartedZeroNeverEnds`, `TimerSpec.ZeroPeriodHangs`).
  `TimerSpec.IdleTickEnds` says exactly when a tick with idle callbacks ends, and
  `TimerSpec.LivelyEnds` that it does for periods of at least one tick, whatever the callbacks do.  A
  start with no delay fires one tick late, at the next tick (`TimerSpec.FiresExactlyOnTime`).
- Receiving a message copies as many bytes as the buffer or the slot has, not as many as were sent.
  `MessageQueueSpec.DeliveredExactly` says exactly when the message arrives unchanged,
  `MessageQueueSpec.BeyondIsStale` that the rest is what the slot held before, and
  `MessageQueueSpec.LeakRun` is a run that shows a byte of an earlier message.

## Model

| member | source | states |
|---|---|---|
| `Bits.FfsIsLowest` | rt-thread/src/kservice.c:1393-1407 | the table lookups return one plus the lowest set bit of any 32-bit word, and 0 for the word 0 only |
| `Lists.Without` | rt-thread/include/rtservice.h:86-92 | unlinking a node keeps all others, in order and once each |
| `Lists.DistinctInsert` | rt-thread/include/rtservice.h:58-80 | linking a new node at any place keeps every node linked once |
| `SchedulerSpec.ScheduleIsPreemptive` | rt-thread/src/scheduler.c:416-538 | an unlocked schedule leaves no READY thread more urgent than the running one, loses and invents nobody, and keeps every thread where its status says |
| `SchedulerSpec.ApplyPlaced` | rt-thread/src/thread.c:696-932 | each step of the scheduler and of threads keeps, iff it is not one that marks a thread closed while it is in a list: READY threads once in the list of their priority, RUNNING only as current and in no list, SUSPEND threads in at most one wait list |
| `SchedulerSpec.Run` | rt-thread/src/scheduler.c:190-973 | that placement holds in every state any run of such steps reaches, between the steps of a detach or delete too |
| `SchedulerSpec.BeginClosePlaced` | rt-thread/src/thread.c:379-383 | unlinking a thread that is to be closed keeps the placement, whatever its status |
| `SchedulerSpec.EndClosePlaced` | rt-thread/src/thread.c:388-391 | marking it closed keeps the placement iff nothing has put it back into a list since; all other threads stay placed in any case |
| `SchedulerSpec.DetachWindow` | rt-thread/src/thread.c:379-391 | whenever a waiting thread is detached and its timeout comes before it is marked closed, it ends up closed and queued as READY |
| `SchedulerSpec.DetachWindowHappens` | rt-thread/src/thread.c:489-504 | a state of two threads where this takes place |
| `SchedulerSpec.SectionsMakeCalls` | rt-thread/src/clock.c:79-91 | a tick and a timeout are the sections before interrupts are enabled, followed by a schedule, so runs may interrupt them there |
| `SchedulerSpec.LateResumePlaced` | rt-thread/src/thread.c:878-887 | the critical section of a resume keeps the placement whatever the status of the thread has become since the test before it |
| `SchedulerSpec.LatePausePlaced` | rt-thread/src/thread.c:830-845 | so does that of a suspend |
| `SchedulerSpec.LateResumeSame` | rt-thread/src/thread.c:870-887 | on a test that no longer holds, a resume does what it should iff the thread is suspended, runs, or is ready and the last of its queue |
| `SchedulerSpec.ClosedComesBack` | rt-thread/src/thread.c:870-887 | whenever a suspended thread is closed between the test and the section, the section queues it to run again |
| `SchedulerSpec.ClosedRunsAgain` | rt-thread/src/thread.c:870-887 | a run after which a deleted thread is the running one |
| `SchedulerSpec.LatePauseDrops` | rt-thread/src/thread.c:821-845 | whenever a thread has gone to wait for an object between the test and the section, a suspend takes it off that list |
| `SchedulerSpec.BootPlaced` | rt-thread/src/scheduler.c:190-235 | it holds before the scheduler starts |
| `SchedulerSpec.ReachablePreemptive` | rt-thread/src/scheduler.c:416-538 | in every reachable state an unlocked schedule is priority-preemptive |
| `SchedulerSpec.StartPlaced` | rt-thread/src/scheduler.c:241-265 | the scheduler starts with a most urgent thread |
| `SchedulerSpec.YieldRotates` | rt-thread/src/thread.c:525-538 | a yield moves the head of current-followed-by-queue to its end and touches no other priority |
| `SchedulerSpec.TickIsYield` | rt-thread/src/clock.c:79-91 | what a tick assigns when a slice ends comes to what a yield assigns |
| `SchedulerSpec.BeatsRotate` | rt-thread/src/scheduler.c:435-469 | any mix of yields and ticks rotates the line by the number of turns that ended in it, other queues unchanged |
| `SchedulerSpec.SliceLasts` | rt-thread/src/clock.c:79-91 | with r ticks left, fewer than r end no turn and r ticks end one |
| `SchedulerSpec.RoundRobin` | rt-thread/src/clock.c:79-91 | with k threads in the line and any mix of yields and expired slices, the thread after i turns is the i-th of the line, and k turns restore the order |
| `SchedulerSpec.WaitKeepsPriority` | rt-thread/src/ipc.c:122-148 | a priority-flagged wait keeps the list ordered, behind everyone at least as urgent |
| `SchedulerSpec.WaitIsEnqueue` | rt-thread/src/ipc.c:109-156 | the lists used for semaphores and mutexes are the ones that suspending builds, in both disciplines |
| `SchedulerEffects.ChangePriorityDoes` | rt-thread/src/thread.c:706-749 | the thread has the new priority and is otherwise as before; if it was READY it is last in the list of that priority, and otherwise no list changes |
| `SchedulerEffects.ResumeDoes` | rt-thread/src/thread.c:860-894 | a suspended thread is READY, last in the list of its priority and off its wait list; any other is left alone |
| `SchedulerEffects.PauseDoes` | rt-thread/src/thread.c:810-849 | a READY or RUNNING thread is SUSPEND and in no list; any other is left alone |
| `SchedulerEffects.WaitOnDoes` | rt-thread/src/ipc.c:109-156 | the running thread is SUSPEND and in the wait list at the place of the discipline; nobody else moves |
| `SchedulerEffects.ScheduleRuns` | rt-thread/src/scheduler.c:416-538 | whom a schedule runs: the running thread unless somebody is more urgent, or as urgent after a yield; else the first of the most urgent list |
| `SchedulerEffects.ScheduleMoves` | rt-thread/src/scheduler.c:440-500 | the thread that runs now is in no list; one that gave way is READY and last in the list of its priority |
| `SchedulerEffects.ScheduleKeeps` | rt-thread/src/scheduler.c:505-538 | if the same thread goes on, nothing but its yield flag changes |
| `SchedulerEffects.YieldDoes` | rt-thread/src/thread.c:525-538 | the thread has its whole slice again, and the most urgent thread runs |
| `SchedulerEffects.StartupDoes` | rt-thread/src/thread.c:323-355 | a started thread has its initial priority and can run, and the most urgent thread runs afterwards |
| `SchedulerEffects.StartupQueues` | rt-thread/src/thread.c:330-346 | before the schedule it is last in the list of that priority |
| `SchedulerEffects.TimeoutDoes` | rt-thread/src/thread.c:903-932 | a timed-out thread can run and waits no more, and the most urgent thread runs afterwards |
| `SchedulerEffects.TimeoutLocked` | rt-thread/src/thread.c:903-932 | while the scheduler is locked it is just queued |
| `SchedulerEffects.ExitDoes` | rt-thread/src/scheduler.c:948-973 | the nesting counts down, and the most urgent thread runs after the last exit |
| `SchedulerEffects.QuitDoes` | rt-thread/src/thread.c:100-136 | a thread that exits is closed and in no list, and another one runs if any can |
| `SchedulerEffects.CloseDoes` | rt-thread/src/thread.c:367-408 | the first step of a detach or delete takes the thread out of its list and changes no status; the last one changes no list |
| `SchedulerEffects.StartRuns` | rt-thread/src/scheduler.c:241-265 | the first of the most urgent list runs first |
| `Scheduler.FfsIsTop` | rt-thread/src/scheduler.c:162-184 | the first set bit of a bitmap that agrees with the lists is the most urgent non-empty list |
| `Scheduler.Kernel.constructor` | rt-thread/src/thread.c:138-234 | a system of initialised threads satisfies the bitmap and placement invariants |
| `Scheduler.Kernel.Highest` | rt-thread/src/scheduler.c:162-184 | the bitmap lookup finds the priority that scanning the lists would find |
| `Scheduler.Kernel.InsertThread` | rt-thread/src/scheduler.c:711-745 | inserting is the list operation, with bitmap and lists in agreement afterwards; the current thread only becomes RUNNING |
| `Scheduler.Kernel.RemoveThread` | rt-thread/src/scheduler.c:808-838 | removing is unlinking, with the bit cleared exactly when the list has become empty |
| `Scheduler.Kernel.SelectThread` | rt-thread/src/scheduler.c:425-538 | the unlocked part of a schedule does what the bitmap-free schedule does |
| `Scheduler.Kernel.Reschedule` | rt-thread/src/scheduler.c:416-538 | so does the whole of it, and both invariants are kept |
| `Scheduler.Kernel.StartScheduler` | rt-thread/src/scheduler.c:241-265 | the first switch is the bitmap-free one |
| `Scheduler.Kernel.ResumeThread` | rt-thread/src/thread.c:860-894 | a suspended thread leaves its wait list for its ready list; any other is refused |
| `Scheduler.Kernel.ResumeSection` | rt-thread/src/thread.c:878-887 | the section agrees with the bitmap-free one for any status: unlinking without a look at the bitmap and inserting leaves bitmap and lists in agreement |
| `Scheduler.Kernel.StartThread` | rt-thread/src/thread.c:323-355 | a thread starts at its initial priority and preempts if it is more urgent |
| `Scheduler.Kernel.SuspendThread` | rt-thread/src/thread.c:810-849 | a ready or running thread leaves its lists; any other is refused |
| `Scheduler.Kernel.PauseSection` | rt-thread/src/thread.c:830-845 | so does the section of a suspend |
| `Scheduler.Kernel.WaitFor` | rt-thread/src/ipc.c:109-156 | the running thread goes to the place in the wait list that the flag demands |
| `Scheduler.Kernel.ScanWaiters` | rt-thread/src/ipc.c:122-138 | the scan stops at the first less urgent waiter |
| `Scheduler.Kernel.TimeoutThread` | rt-thread/src/thread.c:903-932 | a timed-out thread leaves its wait list, becomes ready, and a schedule follows |
| `Scheduler.Kernel.YieldThread` | rt-thread/src/thread.c:525-538 | yielding refills the slice and schedules |
| `Scheduler.Kernel.TickIncrease` | rt-thread/src/clock.c:65-99 | the slice counts down as a 32-bit word; at zero it is refilled, the thread flagged, and a schedule follows |
| `Scheduler.Kernel.SetPriority` | rt-thread/src/thread.c:706-749 | a ready thread changes queue, mask and bitmap; others keep their places |
| `Scheduler.Kernel.BeginCloseThread` | rt-thread/src/thread.c:367-383 | the first step of a detach or delete unlinks the thread and keeps both invariants |
| `Scheduler.Kernel.EndCloseThread` | rt-thread/src/thread.c:388-391 | the last one keeps bitmap and lists in agreement and the others placed, and the thread too iff it is in no list |
| `Scheduler.Kernel.QuitThread` | rt-thread/src/thread.c:100-136 | a thread that exits is unlinked, marked closed and switched away from in one step |
| `Scheduler.Kernel.EnterCriticalSection` | rt-thread/src/scheduler.c:884-899 | nesting goes up by one, nothing else changes |
| `Scheduler.Kernel.ExitCriticalSection` | rt-thread/src/scheduler.c:948-973 | the last exit schedules |
| `TwoLevelTable.ReadyTable.Insert` | rt-thread/src/scheduler.c:720-738 | with 256 priorities, the group word and the table byte stay in agreement with the lists |
| `TwoLevelTable.ReadyTable.Remove` | rt-thread/src/scheduler.c:819-835 | a table bit, and then a group bit, is cleared exactly when its lists are empty |
| `TwoLevelTable.ReadyTable.Highest` | rt-thread/src/scheduler.c:162-184 | two lookups find the most urgent list of 256 |
| `TwoLevelTable.ReadyTable.GroupZero` | rt-thread/src/scheduler.c:162-184 | the group word is zero iff no list has a thread |
| `SkipRows.SubrowInsert` | rt-thread/src/timer.c:410-459 | linking a node at its place into two rows keeps the upper one a subsequence of the lower |
| `SkipRows.SubrowWithout` | rt-thread/src/timer.c:166-174 | unlinking a node from both rows keeps it one |
| `SkipRows.DescendIsShort` | rt-thread/src/timer.c:413-437 | going down at the last node not later lands at or before the right place in the row below |
| `SkipRows.PlaceSeparates` | rt-thread/src/timer.c:413-437 | in an ascending row the insertion point separates what is not later from what is later |
| `TimerSpec.ArmInv` | rt-thread/src/timer.c:365-486 | starting a timer keeps the list sorted by deadline, ties in starting order, each timer once |
| `TimerSpec.DoInv` | rt-thread/src/timer.c:496-578 | so do stopping and the control commands |
| `TimerSpec.Check` | rt-thread/src/timer.c:587-654 | where the expiry loop ends it leaves nothing due and keeps the invariant, whatever the callbacks do |
| `TimerSpec.IdleTickEnds` | rt-thread/src/clock.c:65-99 | a tick with idle callbacks ends iff no periodic timer with a period of zero is due at it |
| `TimerSpec.StartedZeroNeverEnds` | rt-thread/src/timer.c:587-654 | whenever a thread starts a periodic timer with a period of zero, the next tick never ends |
| `TimerSpec.ZeroPeriodHangs` | rt-thread/src/timer.c:587-654 | a new list, the start of one such timer and one tick: the expiry loop goes on for ever |
| `TimerSpec.Tick` | rt-thread/src/clock.c:65-99 | a tick that ends leaves nothing due |
| `TimerSpec.TickLively` | rt-thread/src/clock.c:65-99 | with periods of at least one tick every tick comes to an end |
| `TimerSpec.FiresExactlyOnTime` | rt-thread/src/timer.c:587-654 | over any run whose ticks end, a pending timer that is not started or stopped again is still pending before start plus delay and has fired exactly then afterwards; with no delay, at the next tick |
| `TimerSpec.LivelyRunEnds` | rt-thread/src/timer.c:587-654 | with periods of at least one tick all ticks of every run end |
| `TimerSpec.FiringsInOrder` | rt-thread/src/timer.c:587-654 | over any such run, firings happen on time, in deadline order, ties in starting order |
| `TimerSpec.RoundShrinks` | rt-thread/src/timer.c:603-648 | with periods of at least one tick a round of the expiry loop leaves less to be done at this tick, whatever the callback does |
| `TimerSpec.LivelyEnds` | rt-thread/src/timer.c:587-654 | so the loop ends |
| `TimerSpec.IdleRoundShrinks` | rt-thread/src/timer.c:633-645 | with an idle callback a round leaves less to be done iff the first timer is not periodic with a period of zero |
| `TimerSpec.ZeroPeriodNeverEnds` | rt-thread/src/timer.c:603-648 | however many rounds pass with idle callbacks, a periodic timer with period zero that is due is due again |
| `TimerSpec.IdleEnds` | rt-thread/src/timer.c:587-654 | with idle callbacks the loop ends iff no periodic timer with a period of zero is due |
| `Timers.WrapCompare` | rt-thread/src/timer.c:427-434 | wrapped 32-bit ticks less than half a wrap apart compare as the unbounded ones do |
| `Timers.WrapDue` | rt-thread/src/timer.c:608-612 | the wrapped expiry test holds iff the unbounded deadline has come, also one tick ago |
| `Timers.TimerList.Search` | rt-thread/src/timer.c:410-438 | for any number of levels the multi-level search lands where a linear scan of the bottom row does |
| `Timers.TimerList.SearchRow` | rt-thread/src/timer.c:413-437 | one row of that search, and where it goes on below |
| `Timers.TimerList.ScanRow` | rt-thread/src/timer.c:413-437 | the wrapped comparison stops at the unbounded insertion point |
| `Timers.TimerList.LinkTimer` | rt-thread/src/timer.c:444-459 | the counter decides how many rows get the node; all remain subsequences |
| `Timers.TimerList.StartTimer` | rt-thread/src/timer.c:365-486 | starting on wrapped ticks and skip rows is arming on unbounded ones |
| `Timers.TimerList.StopTimer` | rt-thread/src/timer.c:496-520 | stopping is disarming; an inactive timer is refused |
| `Timers.TimerList.RemoveTimer` | rt-thread/src/timer.c:166-174 | the node leaves every row |
| `Timers.TimerList.CheckTimers` | rt-thread/src/timer.c:587-654 | the expiry loop on wrapped ticks is that on unbounded ones, for any behaviour of the callbacks under which it ends |
| `Timers.TimerList.TickIncrease` | rt-thread/src/clock.c:65-99 | the wrapped clock follows the unbounded one across any number of wraps |
| `Timers.TimerList.Expire` | rt-thread/src/timer.c:603-648 | one round of the loop: take off, call, restart or forget |
| `Timers.TimerList.Release` | rt-thread/src/timer.c:633-645 | after its callback a periodic timer is restarted and another becomes inactive |
| `Timers.TimerList.TakeFirst` | rt-thread/src/timer.c:616-623 | the expired timer leaves the rows before its callback |
| `Timers.TimerList.Execute` | rt-thread/src/timer.c:365-578 | a command from a callback or thread is the unbounded command |
| `TimerEffects.StopCancels` | rt-thread/src/timer.c:496-520 | stopping an active timer makes it inactive, takes it off the queue and out of its own callback's list, and cancels what was pending; other timers and armings are as before |
| `TimerEffects.StopRefused` | rt-thread/src/timer.c:504-505 | an inactive timer is in no list, and stopping it changes nothing |
| `TimerEffects.StartArms` | rt-thread/src/timer.c:377-486 | starting makes the timer active with one arming for its period from now, and cancels one that was pending |
| `TimerEffects.SettingSets` | rt-thread/src/timer.c:547-562 | setting time or mode changes that field only; what is queued stays due as it was |
| `TimerEffects.IdleRoundFires` | rt-thread/src/timer.c:603-648 | a round with an idle callback fires the first timer and no other, which is active afterwards, with one more arming, iff it is periodic |
| `TimerEffects.StoppedInCallback` | rt-thread/src/timer.c:633-645 | a timer that its own callback stops is not started again |
| `TimerEffects.StoppedNeverFires` | rt-thread/src/timer.c:496-520 | over every run after a stop in which nobody starts the timer again, what was pending is cancelled for good and the timer never fires |
| `Gates.DeletingWoken` | rt-thread/src/ipc.c:178-191 | deleting a woken thread keeps the wake-up property iff nobody waits or its share is covered |
| `MemPoolSpec.DeletedWaiterStrandsBlock` | rt-thread/src/mempool.c:407-457 | a four-step run after which deleting the woken thread leaves another waiting in front of a free block |
| `Gates.JoinKeeps` | rt-thread/src/ipc.c:109-156 | suspending when there is nothing keeps the wake-up property |
| `Gates.StepsDo` | rt-thread/src/ipc.c:109-191 | waking takes just the first waiter, suspending puts the thread at its place, a timeout takes just that thread off, in the order as before |
| `MessageQueueSpec.StepInv` | rt-thread/src/ipc.c:2714-3237 | every critical section and every copied byte keeps: each slot in exactly one place, linked slots holding their messages, copies right so far, no wake-up lost |
| `MessageQueueSpec.StepRefines` | rt-thread/src/ipc.c:2714-3237 | each step is one operation of a deque or none |
| `MessageQueueSpec.RunRefines` | rt-thread/src/ipc.c:2714-3237 | over any interleaving the queue is a deque: send at the back, urgent at the front, every receive the front message |
| `MessageQueueSpec.Delivered` | rt-thread/src/ipc.c:3141-3142 | a finished copy has the message that was sent, up to the buffer's length |
| `MessageQueueSpec.DeliveredExactly` | rt-thread/src/ipc.c:3141-3142 | what is received is a part of the message iff the shorter of buffer and slot does not reach beyond it, and the message itself iff it has the same length |
| `MessageQueueSpec.BeyondIsStale` | rt-thread/src/ipc.c:3141-3142 | over any interleaving between a send and its receive, the bytes beyond the end of the message are those the slot held before the send |
| `MessageQueueSpec.LeakRun` | rt-thread/src/ipc.c:2714-3171 | a run of two messages from a new queue after which the second receive has a byte of the first message |
| `MessageQueueSpec.ReachableState` | rt-thread/src/ipc.c:2454-3237 | in every reachable state each slot is in exactly one of free list, queue and one thread's hands, and a waiting receiver or sender means that at most as much is available as threads woken and not yet back |
| `MessageQueueSpec.EntryNeverOverflows` | rt-thread/src/ipc.c:2844-2853 | the 16-bit overflow exit of a send is unreachable |
| `MessageQueueSpec.InitialInv` | rt-thread/src/ipc.c:2454-2504 | a new queue satisfies the invariant |
| `MessageQueueEffects.ReserveDoes` | rt-thread/src/ipc.c:2730-2822 | an oversized message is refused; with a free slot the thread takes the first, without one it waits or has left |
| `MessageQueueEffects.FillDoes` | rt-thread/src/ipc.c:2824-2827 | just one byte of one slot changes, to the next of the message |
| `MessageQueueEffects.LinkDoes` | rt-thread/src/ipc.c:2829-2872 | the slot is last in the queue, or first if urgent, and the first receiver is woken |
| `MessageQueueEffects.FetchDoes` | rt-thread/src/ipc.c:3046-3139 | the first slot of the queue is taken, or the thread waits or has left |
| `MessageQueueEffects.DrainDoes` | rt-thread/src/ipc.c:3141-3142 | one more byte is received and nothing else changes |
| `MessageQueueEffects.GiveBackDoes` | rt-thread/src/ipc.c:3144-3171 | the slot is the next to be reserved and the first sender is woken |
| `MessageQueueEffects.TimeoutDoes` | rt-thread/src/thread.c:903-932 | the thread leaves its list and no slot is touched |
| `MessageQueueEffects.ResetDoes` | rt-thread/src/ipc.c:3189-3237 | the queue is empty, its slots are free, those in hand stay there, and nobody waits |
| `MessageQueue.Queue.constructor` | rt-thread/src/ipc.c:2454-2504 | the loop links all slots into the free list, last one first |
| `MessageQueue.Queue.Reserve` | rt-thread/src/ipc.c:2730-2822 | the first critical section takes a slot, suspends, or refuses an oversized or unlucky call |
| `MessageQueue.Queue.CopyIn` | rt-thread/src/ipc.c:2824-2827 | one byte of the copy, with the link cleared before it |
| `MessageQueue.Queue.LinkTail` | rt-thread/src/ipc.c:2829-2872 | the slot becomes the last; head, tail and counter stay right; one receiver is woken |
| `MessageQueue.Queue.LinkHead` | rt-thread/src/ipc.c:2962-3001 | the slot becomes the first |
| `MessageQueue.Queue.Fetch` | rt-thread/src/ipc.c:3046-3139 | the first critical section of a receive takes the head, suspends, or returns empty-handed |
| `MessageQueue.Queue.CopyOut` | rt-thread/src/ipc.c:3141-3142 | one byte of the receiver's copy |
| `MessageQueue.Queue.GiveBack` | rt-thread/src/ipc.c:3144-3171 | the slot is free again and one sender is woken |
| `MessageQueue.Queue.Reset` | rt-thread/src/ipc.c:3189-3237 | all slots in the queue become free, all waiters leave |
| `MessageQueue.Queue.ReleaseAll` | rt-thread/src/ipc.c:3208-3223 | the loop that frees them ends with an empty queue and the free list in its order |
| `MailboxSpec.StepInv` | rt-thread/src/ipc.c:1970-2393 | every critical section keeps the bound and loses no wake-up |
| `MailboxSpec.ReachableState` | rt-thread/src/ipc.c:1970-2343 | nor does any run, in either direction |
| `MailboxSpec.FirstInFirstOut` | rt-thread/src/ipc.c:1970-2343 | without urgent mail and resets, words come out in the order they went in, over any run |
| `MailboxSpec.EachWordOnce` | rt-thread/src/ipc.c:2141-2193 | with urgent mail, every word comes out at most once and none is invented |
| `MailboxSpec.SendDoes` | rt-thread/src/ipc.c:1970-2193 | the word is last, or first if urgent, and the first receiver is woken; with a full box the sender waits or has left |
| `MailboxSpec.RecvDoes` | rt-thread/src/ipc.c:2232-2343 | the first word is taken and the first sender woken; with an empty box the receiver waits or has left |
| `MailboxSpec.TimeoutAndResetDo` | rt-thread/src/ipc.c:2361-2393 | a timeout takes the thread off its list and no word away; a reset leaves neither words nor waiters |
| `Mailbox.Box.constructor` | rt-thread/src/ipc.c:1762-1790 | a new box is empty |
| `Mailbox.Box.Send` | rt-thread/src/ipc.c:1988-2097 | the ring write is an append; a full box suspends or refuses; the overflow exit is not taken |
| `Mailbox.Box.Urgent` | rt-thread/src/ipc.c:2141-2193 | the rewound write is a prepend |
| `Mailbox.Box.Recv` | rt-thread/src/ipc.c:2232-2343 | the ring read yields the first word; an empty box suspends or refuses |
| `Mailbox.Box.Reset` | rt-thread/src/ipc.c:2361-2393 | an empty box and no waiters |
| `MemPoolSpec.StepInv` | rt-thread/src/mempool.c:311-457 | every block is free once or handed out, and no wake-up is lost |
| `MemPoolSpec.ReachableState` | rt-thread/src/mempool.c:311-457 | so over any run of allocations, releases and timeouts |
| `MemPoolSpec.AllocDoes` | rt-thread/src/mempool.c:311-399 | the first free block is handed out, or the thread waits in front of the others or has left |
| `MemPoolSpec.FreeDoes` | rt-thread/src/mempool.c:407-457 | the block is the next to be handed out and the first waiter is woken |
| `MemPoolSpec.TimeoutDoes` | rt-thread/src/thread.c:903-932 | the thread leaves its list and no block changes hands |
| `MemPool.BlocksApart` | rt-thread/src/mempool.c:101-126 | the user's parts of blocks do not overlap, stay in the pool and clear of all links |
| `MemPool.LastLink` | rt-thread/src/mempool.c:101-123 | the write that ends the list lies in the pool iff the pool has room for a block, and otherwise one block before it |
| `MemPool.LastLinkBeforePool` | rt-thread/src/mempool.c:101-123 | eight bytes for blocks of eight: that write goes twelve bytes before the pool |
| `MemPool.MemoryPool.constructor` | rt-thread/src/mempool.c:81-128 | the loop links all blocks in address order; a region without room for one gives an empty pool |
| `MemPool.MemoryPool.Alloc` | rt-thread/src/mempool.c:311-399 | a block that was not in use, a refusal, or a suspension in front of the other waiters |
| `MemPool.MemoryPool.Free` | rt-thread/src/mempool.c:407-457 | the block is free and the first waiter woken |
| `WaitOrder.EnqueueIsFair` | rt-thread/src/ipc.c:122-148 | a thread enters behind everyone at least as urgent and before everyone less urgent |
| `WaitOrder.EnqueueSorted` | rt-thread/src/ipc.c:122-148 | the list stays sorted |
| `SemaphoreSpec.Conservation` | rt-thread/src/ipc.c:464-634 | over any run, initial value plus releases equals value plus grants, hand-offs included, and nobody waits while the value is positive |
| `SemaphoreSpec.Earliest` | rt-thread/src/ipc.c:586-634 | the thread to be granted is the most urgent, and of those the first to have come |
| `SemaphoreSpec.LineFirst` | rt-thread/src/ipc.c:178-191 | the head of a priority-ordered list is that thread |
| `SemaphoreSpec.LineWithout` | rt-thread/src/thread.c:903-932 | taking a thread out of the list is as if it had never come |
| `SemaphoreSpec.TakeDoes` | rt-thread/src/ipc.c:464-549 | a take is granted while the value is positive, and otherwise queued or refused |
| `SemaphoreSpec.ReleaseDoes` | rt-thread/src/ipc.c:586-634 | a release goes to the first to have come or the most urgent, or raises the value, or is refused at the limit |
| `SemaphoreSpec.TimeoutDoes` | rt-thread/src/thread.c:903-932 | the thread leaves the line; value and grants stay |
| `Semaphore.Sem.constructor` | rt-thread/src/ipc.c:283-304 | value as given, nobody waiting |
| `Semaphore.Sem.Take` | rt-thread/src/ipc.c:464-549 | a grant, a refusal, or a suspension in serving order |
| `Semaphore.Sem.Release` | rt-thread/src/ipc.c:586-634 | a hand-off to the right thread, or one more, or the overflow error at 65535 with nobody waiting |
| `Semaphore.Sem.Timeout` | rt-thread/src/thread.c:903-932 | the thread leaves the line, the others keep their order |
| `MutexSpec.StepBasic` | rt-thread/src/ipc.c:893-1184 | nested or not: free iff value 1, hold 0, no owner and no waiters |
| `MutexSpec.NoOverflow` | rt-thread/src/ipc.c:942-958 | the overflow exit of a first take and both of a last release are unreachable |
| `MutexSpec.StepInv` | rt-thread/src/ipc.c:893-1184 | without nesting every step keeps owners at least as urgent as their waiters, lists sorted, and the right priority saved |
| `MutexSpec.InheritanceHolds` | rt-thread/src/ipc.c:893-1184 | so in every reachable state; a thread that owns nothing has the priority it began with |
| `MutexSpec.LastReleaseRestores` | rt-thread/src/ipc.c:1115-1150 | the last release restores the priority at acquisition and hands over to a most urgent waiter |
| `MutexSpec.ReleaseKeepsUrgent` | rt-thread/src/ipc.c:1118-1125 | with nesting, a last release keeps every owner urgent enough iff the saved priority suffices for each other mutex the thread holds and the first waiter is a most urgent one |
| `MutexSpec.WaitKeepsOrder` | rt-thread/src/ipc.c:978-994 | a wait keeps every list in order iff the owner, if boosted, does not overtake anyone ahead of it in a list where it waits |
| `MutexSpec.OthersKeepOrder` | rt-thread/src/ipc.c:1076-1184 | releases and timeouts keep every list in order |
| `MutexSpec.HandOverRun` | rt-thread/src/ipc.c:893-1184 | the steps of a six-step run with nested locks are those the code makes |
| `MutexSpec.UnorderedHandOver` | rt-thread/src/ipc.c:1130-1150 | at its end an owner is less urgent than its waiter although the priority restored was harmless |
| `WaitOrder.EnqueueSortedIff` | rt-thread/src/ipc.c:122-148 | entering puts a list out of order only if it was so before |
| `MutexSpec.WaitKeepsUrgent` | rt-thread/src/ipc.c:978-990 | with nesting, waiting keeps every owner urgent enough iff the boosted owner does not itself wait behind a less urgent one |
| `MutexSpec.NestingBreaksInheritance` | rt-thread/src/ipc.c:1118-1125 | a run of four steps after which an owner is less urgent than its waiter |
| `Mutexes.Mutex.constructor` | rt-thread/src/ipc.c:722-744 | a new mutex is free |
| `Mutexes.Mutex.Take` | rt-thread/src/ipc.c:893-1038 | recursion, first take, refusal, or boost and wait; only recursion can overflow |
| `Mutexes.Mutex.Release` | rt-thread/src/ipc.c:1076-1184 | hold goes down; the last one restores, hands over or frees; only the owner may |
| `Mutexes.Mutex.Timeout` | rt-thread/src/thread.c:903-932 | a waiter leaves, boosts stay |
| `MutexEffects.TakeFree` | rt-thread/src/ipc.c:931-962 | a free mutex is the thread's, held once, with its priority saved |
| `MutexEffects.TakeAgain` | rt-thread/src/ipc.c:918-930 | the owner's take counts once more and changes nothing else, or is refused at the limit |
| `MutexEffects.TakeRefused` | rt-thread/src/ipc.c:964-972 | a take that may not wait changes nothing |
| `MutexEffects.TakeWaits` | rt-thread/src/ipc.c:975-994 | the thread enters the list and the owner gets its priority if that is more urgent; owner and hold stay |
| `MutexEffects.ReleaseRefused` | rt-thread/src/ipc.c:1101-1110 | nobody but the owner can release |
| `MutexEffects.ReleaseCounts` | rt-thread/src/ipc.c:1112-1115 | a release that is not the last counts down and changes nothing else |
| `MutexEffects.ReleaseLast` | rt-thread/src/ipc.c:1115-1150 | the last one gives the mutex to the first waiter, held once, or to nobody, and restores the saved priority |
| `MutexEffects.TimeoutLeaves` | rt-thread/src/thread.c:903-932 | the waiter leaves, the others keep their order, a boost stays |
| `MutexEffects.HoldIsBalance` | rt-thread/src/ipc.c:893-1184 | over every run, as long as the takes and releases of the owner, counted from the steps, leave a positive count, it owns the mutex and holds it that often |
| `MutexEffects.LastReleaseGivesUp` | rt-thread/src/ipc.c:1076-1184 | the release that brings the count to zero gives the mutex up |
| `MutexEffects.NestedTakes` | rt-thread/src/ipc.c:893-1184 | after n takes the first n - 1 releases leave the mutex with the thread |
| `EventSpec.ServeInv` | rt-thread/src/ipc.c:1452-1500 | whoever still waits after a send is not satisfied by what is left |
| `EventSpec.NobodySleepsThrough` | rt-thread/src/ipc.c:1423-1713 | in every reachable state no suspended thread is satisfied by the current set |
| `EventSpec.RecvDoes` | rt-thread/src/ipc.c:1575-1640 | a receive that is met clears what it asked for, if it said so, and nothing else; one that is not changes nothing or waits at its place |
| `EventSpec.ReceivedOnce` | rt-thread/src/ipc.c:1597-1599 | what was cleared is not received again |
| `EventSpec.TimeoutDoes` | rt-thread/src/thread.c:903-932 | the thread leaves the list, the others keep their order, the flags stay |
| `EventSpec.SendIsReceives` | rt-thread/src/ipc.c:1423-1512 | a send reaches the flags of the run of a non-blocking receive for each waiter in order; those who are refused there stay, the others get what they would have received |
| `Event.EventObject.constructor` | rt-thread/src/ipc.c:1256-1274 | no flags, nobody waiting |
| `Event.EventObject.Send` | rt-thread/src/ipc.c:1423-1512 | setting the bits and then a non-blocking receive for each waiter in order: same bits received, same bits cleared, same threads left |
| `Event.EventObject.Recv` | rt-thread/src/ipc.c:1548-1667 | the bits asked for that are set, a refusal, or a suspension |
| `Event.EventObject.Reset` | rt-thread/src/ipc.c:1685-1713 | no flags and no waiters |
| `HeapChain.SameIndex` | rt-thread/src/mem.c:156-194 | headers come in ascending order, so an offset determines its block |
| `HeapChain.NothingUsed` | rt-thread/src/mem.c:203-256 | a coalesced chain with nothing used is the initial block |
| `HeapChain.PeakIsMaximum` | rt-thread/src/mem.c:349-367 | the peak of a history of amounts in use is reached once and never exceeded |
| `SmallMem.LowestNotAbsorbed` | rt-thread/src/mem.c:168-190 | the lowest free block is never the upper of two free neighbours, so the two adjustments of it while merging have nothing to do |
| `SmallMem.PassedOver` | rt-thread/src/mem.c:304-311 | the only block with room that the search can pass over is an exact fit at the very end |
| `SmallMem.FreeEverything` | rt-thread/src/mem.c:553-616 | with everything freed the heap is one free block from offset 0 with nothing counted as used |
| `SmallMem.TinyHeapSearchNeverEnds` | rt-thread/src/mem.c:290-310 | on a fresh heap with fewer than 12 but more than 0 bytes the search bound wraps and the search goes on for ever |
| `SmallMem.BlocksApart` | rt-thread/src/mem.c:271-516 | live blocks are aligned, in bounds, do not overlap and keep clear of all headers |
| `SmallMem.Heap.constructor` | rt-thread/src/mem.c:203-256 | one free block and the sentinel |
| `SmallMem.Heap.PlugHoles` | rt-thread/src/mem.c:156-194 | merging leaves no two adjacent free blocks, with exact links and sums |
| `SmallMem.Heap.Find` | rt-thread/src/mem.c:304-311 | the lowest block that fits below the bound, or none iff there is none |
| `SmallMem.Heap.DivideBlock` | rt-thread/src/mem.c:328-347 | a new header keeps tiling, back links and sums |
| `SmallMem.Heap.Take` | rt-thread/src/mem.c:312-369 | the block is split or taken whole and counted |
| `SmallMem.Heap.AdvanceLowest` | rt-thread/src/mem.c:379-386 | the lowest free block is found again |
| `SmallMem.Heap.Malloc` | rt-thread/src/mem.c:271-409 | first fit by address, refused iff zero, too large or nothing fits; all invariants kept, live blocks undisturbed |
| `SmallMem.Heap.Free` | rt-thread/src/mem.c:553-616 | only the freed block changes hands; no two free neighbours remain |
| `SmallMem.Heap.Shrink` | rt-thread/src/mem.c:471-504 | the tail of a block becomes free and is merged |
| `SmallMem.Heap.Resize` | rt-thread/src/mem.c:459-516 | it stays iff the size is right or the rest can be split off, and otherwise fails iff no block fits or moves to the lowest that does; the first bytes kept up to the smaller size, other blocks and their contents untouched; the amounts in use passed through are exactly those of the branch taken |
| `SmallMem.Heap.Realloc` | rt-thread/src/mem.c:421-516 | null exactly for zero, too large, and what neither stays nor fits elsewhere; foreign pointers come back; the maximum used is that of the whole history, with both copies counted while a block moves |
| `SmallMem.Heap.CopyData` | rt-thread/src/mem.c:507-513 | the copy does not disturb any live block |
| `SmallMem.Heap.CopyAndFree` | rt-thread/src/mem.c:507-513 | the old block is released after it, and the maximum is the one with both copies |
| `FreeList.PushRing` | rt-thread/src/memheap.c:165-169 | insertion keeps the doubly linked ring |
| `FreeList.RemoveRing` | rt-thread/src/memheap.c:305-309 | removal keeps it |
| `Memheap.EmptiedPool` | rt-thread/src/memheap.c:116-191 | with everything given back the pool is one free block and all of it available |
| `Memheap.TakenPart` | rt-thread/src/memheap.c:273-326 | splitting keeps tiling, separation and the available size |
| `Memheap.Grown` | rt-thread/src/memheap.c:460-507 | growing in place keeps them |
| `Memheap.Shrunk` | rt-thread/src/memheap.c:546-603 | shrinking, with or without a merge, keeps them |
| `Memheap.FreedLeft` | rt-thread/src/memheap.c:668-684 | merging with the block before keeps them |
| `Memheap.JoinedRight` | rt-thread/src/memheap.c:686-706 | merging with the block behind keeps them |
| `Memheap.TinyPoolWraps` | rt-thread/src/memheap.c:128-131 | the available size computed at the start is within the pool iff there is room for two headers |
| `Memheap.ExactSizeIsRefused` | rt-thread/src/memheap.c:224-253 | a heap of 60 bytes with one free block of 12 refuses 12 bytes |
| `Memheap.Heap.constructor` | rt-thread/src/memheap.c:116-191 | one free block in the list and a tail that is never free |
| `Memheap.Heap.Search` | rt-thread/src/memheap.c:255-266 | the first block of the free list that fits, or none iff there is none |
| `Memheap.Heap.Alloc` | rt-thread/src/memheap.c:224-378 | granted iff the rounded size is below what is available and some free block fits; available falls by the data taken, and a header iff the block was split; the maximum is the historical one; live blocks and all bytes undisturbed |
| `Memheap.Heap.Free` | rt-thread/src/memheap.c:619-727 | ring, free list, separation and available size stay right; only the freed block changes hands |
| `Memheap.Heap.Grow` | rt-thread/src/memheap.c:443-517 | the block grows into the free one behind, contents are kept and the maximum follows |
| `Memheap.Heap.Shrink` | rt-thread/src/memheap.c:546-606 | the far end becomes a free block, merged if it can be; what is kept of the block keeps its contents |
| `Memheap.Heap.Resize` | rt-thread/src/memheap.c:418-610 | it stays iff it has room or the free block behind has what is missing, and otherwise fails iff no free block can be granted; the first bytes kept up to the smaller size, every other block whole; the sizes passed through are exactly those of the branch taken |
| `Memheap.Heap.Enlarge` | rt-thread/src/memheap.c:432-531 | the branches for a larger size: into the block behind, to another one, or null iff neither is possible |
| `Memheap.Heap.CopyData` | rt-thread/src/memheap.c:521-530 | the copy disturbs no other live block |
| `Memheap.Heap.CopyAndFree` | rt-thread/src/memheap.c:521-530 | the old block is released after it |
| `Memheap.Heap.Realloc` | rt-thread/src/memheap.c:393-610 | null, zero, in place, moved or failed, each under its exact condition: one block resized with its contents, all others undisturbed; the maximum used is that of the whole history, with both copies counted while a block moves |
| `Pages.CanonicalIsUnique` | rt-thread/src/slab.c:284-334 | there is one sorted list of maximal runs for a set of free pages |
| `Pages.TakeKeeps` | rt-thread/src/slab.c:241-275 | allocation keeps it and takes exactly the pages it returns |
| `Pages.TakeIsLowest` | rt-thread/src/slab.c:241-275 | allocation fails iff no such run of free pages exists, and takes the lowest otherwise |
| `Pages.GiveKeeps` | rt-thread/src/slab.c:284-334 | release keeps it and adds exactly the pages given |
| `Pages.TakeGive` | rt-thread/src/slab.c:241-334 | freeing a run just allocated restores the identical list |
| `Pages.PageAllocator.constructor` | rt-thread/src/slab.c:339-346 | one run |
| `Pages.PageAllocator.Alloc` | rt-thread/src/slab.c:241-275 | the loop over the list does this in place |
| `Pages.PageAllocator.Free` | rt-thread/src/slab.c:284-334 | so does that of release, with its merges |
| `SlabZones.ZoneIndexIsClass` | rt-thread/src/slab.c:412-470 | the class determines the chunk size, which holds the request and wastes less than a unit |
| `SlabZones.TakeChunkOk` | rt-thread/src/slab.c:550-579 | the free count is never-used plus listed chunks, so the pop never meets an empty list; the chunk was not in use |
| `SlabZones.TakeChunkOrder` | rt-thread/src/slab.c:555-579 | chunks never used go first, then the one that came back last |
| `SlabZones.FreshZoneFull` | rt-thread/src/slab.c:639-659 | a new zone has as many chunks as fit |
| `SlabZones.GiveChunkOk` | rt-thread/src/slab.c:844-860 | putting a chunk back keeps the count |
| `SlabZones.AllFree` | rt-thread/src/slab.c:862-870 | the free count is at its maximum iff no chunk is in use |
| `SlabZones.FreshZoneOk` | rt-thread/src/slab.c:639-659 | a new zone has at least two chunks, behind its header and within its pages |
| `SlabZones.ZoneIndexPower` | rt-thread/src/slab.c:412-470 | a request for a power of two gets a chunk of just that size, or 8 if it is smaller |
| `SlabZones.PowerChunk` | rt-thread/src/slab.c:639-659 | a chunk whose size is a power of two is as far from a multiple of its size as its zone is |
| `SlabSpec.LookupFindsZone` | rt-thread/src/slab.c:809-842 | the page table leads from any chunk in use back to its own zone |
| `SlabSpec.LiveChunksApart` | rt-thread/src/slab.c:489-678 | chunks in use of all zones do not overlap and keep clear of zone headers |
| `SlabSpec.MallocSmallInv` | rt-thread/src/slab.c:533-678 | a small request gets a chunk not in use, at least as large as it and by less than a unit larger, aligned to 8 bytes, or fails iff no zone with room, no spare zone and no run of pages is left |
| `SlabSpec.PowerOf2Aligned` | rt-thread/src/slab.c:489-678 | a request for a power of two, served from a zone or by whole pages, is aligned to itself iff it is at most a page or the first page to be used is aligned to it: that of the first zone with room, else of the first spare zone, else of the lowest run of pages that is long enough |
| `SlabSpec.UnalignedLarge` | rt-thread/src/slab.c:503-530 | a heap of 16 pages answers requests for 8192 and for 16384 bytes with address 4096 |
| `SlabSpec.UnalignedSmall` | rt-thread/src/slab.c:591-652 | a heap of 16385 pages answers a request for 8192 bytes from its first zone with address 77824 |
| `SlabSpec.MallocFails` | rt-thread/src/slab.c:489-678 | null is returned iff the request is for zero bytes, or small without a zone with room, a spare zone or pages for one, or large without pages |
| `SlabSpec.InitialInv` | rt-thread/src/slab.c:355-406 | a new heap satisfies the invariant; up to 64 MB its requests from 8 kB on are served by whole pages, above from 16 kB on |
| `SlabSpec.LargeAreaApart` | rt-thread/src/slab.c:503-530 | a large area overlaps no chunk in use, no zone header and no other large area |
| `SlabSpec.MallocLargeInv` | rt-thread/src/slab.c:503-530 | a large request gets the lowest free pages that hold it with less than a page wasted, or fails iff there are none; chunks in use and other areas stay as they are |
| `SlabSpec.FreeSmallInv` | rt-thread/src/slab.c:836-918 | only the freed chunk goes out of use, even when its zone is retired or its pages released |
| `SlabSpec.FreeSmallRetires` | rt-thread/src/slab.c:866-918 | with its last chunk back a zone leaves service iff another can serve its class, to the spare ones or, with two of them, its pages to the free ones; otherwise it stays with one more free chunk |
| `SlabSpec.FreeLargeGives` | rt-thread/src/slab.c:810-834 | the pages of a large area become free, and no others |
| `SlabSpec.FreeInv` | rt-thread/src/slab.c:785-918 | so for any address that may be freed |
| `SlabSpec.FreeAreas` | rt-thread/src/slab.c:785-834 | freeing a chunk leaves the large areas alone, and freeing an area takes away just that one |
| `SlabSpec.MallocInv` | rt-thread/src/slab.c:489-678 | a request of any size keeps the invariant; what it returns was not in use, may be freed, and is all that is new |
| `SlabSpec.ReachableZones` | rt-thread/src/slab.c:489-918 | in every reachable state: counts right, chunks disjoint and clear of headers, page table exact |
| `SlabSteps.StepInv` | rt-thread/src/slab.c:489-918 | with the lock given up around every call of the page allocator, each section keeps the invariant and the pages on the move apart, and changes the chunks in use by just the one returned or freed |
| `SlabSteps.SectionsMakeMalloc` | rt-thread/src/slab.c:503-530 | with nothing in between, taking pages and entering them is the whole call |
| `SlabSteps.SectionsMakeFree` | rt-thread/src/slab.c:836-918 | so is freeing a chunk and putting the pages of a discarded zone back |
| `SlabSteps.SectionsMakeFreeArea` | rt-thread/src/slab.c:810-834 | and withdrawing a large area and putting its pages back |
| `SlabSteps.ReachableChunks` | rt-thread/src/slab.c:489-918 | over any interleaving of these sections from a new heap, chunks in use overlap neither one another nor headers nor pages on the move, and the page table leads back to their zones |
| `Slab.Allocator.constructor` | rt-thread/src/slab.c:355-406 | zone size and page table as computed from the number of pages; a fresh heap satisfies the invariant |
| `Slab.Allocator.Malloc` | rt-thread/src/slab.c:489-678 | the lists, headers and page table change as specified |
| `Slab.Allocator.Free` | rt-thread/src/slab.c:785-918 | likewise, with the lookup through the page table |
| `Slab.Allocator.TakeFromList` | rt-thread/src/slab.c:545-588 | the zone leaves its list exactly when it becomes full |
| `Slab.Allocator.RetireZone` | rt-thread/src/slab.c:876-888 | the loop unlinks the zone wherever it stands |
| `Slab.Pick` | rt-thread/src/slab.c:555-579 | the next chunk never used, or the head of the free list |
| `StackUsage.CallerBounded` | rt-thread/tools/WCS.py:259-290 | with bounded callees and no pointer call a function is bounded: a path back to it would be a cycle through a callee |
| `StackUsage.CallerLargest` | rt-thread/tools/WCS.py:269-290 | the largest path sum is the function's own stack and the most a callee needs |
| `StackUsage.RecursionUnbounded` | rt-thread/tools/WCS.py:264-267 | a function met again below itself is on a cycle |
| `StackUsage.TruthIsUnique` | rt-thread/tools/WCS.py:245-299 | there is one right answer, so the order of visits cannot matter |
| `StackUsage.Analysis.Calc` | rt-thread/tools/WCS.py:246-290 | the search ends and records a number iff no pointer call and no cycle is reachable, namely the maximum stack sum over all call paths |
| `StackUsage.Analysis.CalcCalls` | rt-thread/tools/WCS.py:269-290 | the loop over callees, with the unresolved names of all reachable functions collected |
| `StackUsage.Analysis.CalcAll` | rt-thread/tools/WCS.py:292-299 | so for all functions, in whatever order |
| `Romfs.ImageShowsTree` | rt-thread/tools/mkromfs.py:165-244 | following the stored addresses from the root entry finds all kinds, names, sizes and contents in order, every address divisible by four |
| `Romfs.ShowsUnique` | rt-thread/tools/mkromfs.py:165-214 | an image shows one tree only, if names have no zero byte |
| `Romfs.SmallFits` | rt-thread/tools/mkromfs.py:165-214 | an image that ends below the 32-bit limit can be built |
| `Romfs.BinData` | rt-thread/tools/mkromfs.py:165-214 | the loop yields the layout, or fails iff some packed value exceeds 32 bits |
| `Romfs.ChildData` | rt-thread/tools/mkromfs.py:186-212 | what one child adds |
| `Romfs.GetBinData` | rt-thread/tools/mkromfs.py:233-244 | whenever it succeeds at an aligned address, the image shows the tree |

## Left out

- SMP scheduling, signals, and the idle and soft timer threads.
- Resets of a semaphore, deletion and detachment of IPC objects and pools, and user calls of
  `rt_thread_resume` on threads that wait for them: they void the wake-up accounting.
- Device, object and interrupt registries, drivers, start-up code, hooks, debug output, the shell.
- String and print routines; of `kservice.c` only `__rt_ffs` is modelled.
- Wrap-around of the nesting count of critical sections: it is a number without bound.
- Timeouts of blocking calls are a choice of the run (`mayWait`, and a step for the expiry), not tied
  to the timer model; where a waiter enters a list is any position for mailbox, message queue and
  events, and computed for semaphores, mutexes and the scheduler.
- Priority changes of threads that are queued on a semaphore or mutex, other than by inheritance.
- A word of event flags is the set of its one bits, without the bound of 32.
- Timers: the flag `RT_TIMER_FLAG_ACTIVATED` is cleared once where `rt_timer_check` clears it twice
  before a restart.
- Scheduler.Kernel.ResumeThread: models a call with nothing between its test and its critical section
  (thread.c:870-879); a section on a stale test is `Scheduler.Kernel.ResumeSection`.
- Scheduler.Kernel.SuspendThread: likewise (thread.c:821-830), with `Scheduler.Kernel.PauseSection`.
- SchedulerSpec.Run: ends at a step that marks a thread closed while it is in a list; nothing is said about
  the states after that.
- TimerSpec.DoInv: is for new times below half the tick range; `rt_timer_control` accepts any, and the
  assertion at the next `rt_timer_start` stops the system (timer.c:394).
- SmallMem.Heap.constructor: is for regions with at least 12 data bytes; what happens in smaller ones is
  `SmallMem.TinyHeapSearchNeverEnds`.
- Memheap.Heap.constructor: is for pools with room for two headers; what happens in smaller ones is
  `Memheap.TinyPoolWraps`.
- SmallMem.Heap.Realloc: models a call without others in between, although a moving one gives up the lock
  before it allocates, copies and releases (mem.c:504-513).
- Memheap.Heap.Realloc: models a call without others in between, although a moving one gives up the lock
  before it allocates, copies and releases (memheap.c:520-528).
- TimerSpec.Check: is for states and callbacks with which the expiry loop ends; when that is so is stated by
  `TimerSpec.LivelyEnds` and `TimerSpec.IdleEnds`.
- Slab.Allocator.Malloc: models a call without others in between; the interleavings of its sections are in
  `SlabSteps`.  The slab versions of `rt_realloc` and `rt_calloc` are not part of this model.
- Slab.Allocator.Free: likewise.
- `rt_memheap_alloc` on several heaps, `rt_calloc` in all allocators, memory statistics of the slab
  allocator, and sizes whose rounding up would wrap.
- WCS.py: reading object, RTL and stack-usage files, and finding functions by name; a call is an index
  into the graph or an unresolved name.
- mkromfs.py: walking directories, sorting, and the C-source form of the image; strings are bytes.
