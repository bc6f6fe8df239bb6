# Verification of the kernel cores

Six state machines of the toy kernels in this repository, modelled in Dafny and proved:

* **Event coalescing** (RESEARCH-OS, `power.c` and `shell.c`): keys queued in a ring and drained
  on a tick look, to the shell, as if they had been typed directly; latency is bounded and the
  metrics add up. `PowerSpec`, `PowerRuns`, `PowerCounts`, `PowerManager`.
* **Free-list heap and processes** (modular-kernel, `mm.c` and `proc.c`): headers, links and
  payloads share one array of words; first fit, no coalescing, exact capacity, run-to-completion
  order. `HeapSpec`, `HeapLaws`, `HeapMemory`, `ProcSpec`, `ProcTable`.
* **Preemptive scheduling** (REPLAY-OS, `task.c`, `interrupt.asm`, `pmm.c`): the circular run list
  under preemption, the push/pop context switch and its transparency, the frame bitmap and the
  memory layout. `RoundRobin`, `RunRing`, `Creations`, `CreationRuns`, `CreationFrames`,
  `CreationSteps`, `CreationRing`, `CreationClash`, `ContextSwitch`, `Preemption`, `IrqStub`,
  `FrameBitmap`.
* **Trace, disk and replay** (REPLAY-OS, `trace.c`, `trace_disk.c`, `replay.c`): the overwriting
  ring, its sector dump and its reader. `TraceRing`, `TraceOrder`, `TracedScheduler`,
  `TraceDisk`, `LiveSave`.
* **Scrolling console** (RESEARCH-OS, `vga.c`): 25 x 80 cells that show the last rows of an
  unbounded terminal. `Console`.
* **Virtio receive queue** (MDK, `virtio_net.c`): sixteen buffers shared between driver and device
  through two rings with 16-bit indices (VIRTIO 1.1, sections 2.6.6 and 2.6.8). `VirtioSpec`,
  `VirtioRx`.

Each C file appears as a class with its statics as fields, updated in place, whose methods are
proved against functions on values; the laws are lemmas about those functions over all runs. Ports,
clocks and interrupts arriving become parameters or nondeterministic choices. Counters that C keeps
in 64 bits are unbounded naturals; 16-bit ring indices and 32-bit sizes wrap as they do in C.

Where the code does less than its intent, the exact condition is proved, with an input that fails:
`mm_alloc` honours a request only up to 2^32 - 8 bytes (`HeapLaws.AllocHoldsRequest`,
`HeapLaws.WrappedRequest`), `pmm_alloc_frame` returns null for frame 0 as well as for exhaustion
(`FrameBitmap.NullMeansExhausted`, `FrameBitmap.NullWithMemoryLeft`), a trace load runs past its
buffer exactly above 981 events (`TraceDisk.LoadStaysInBuffer`), replay order is chronological only
up to 1000 events or for full rounds (`TraceRing.ChronologicalExactlyWhen`), overlapping `task_create`
calls all end up in the ring exactly if none computes its descriptor between another's lines 21 and 22
and none publishes over another's publication (`CreationRing.EveryoneInExactlyWhen`,
`OverlappingCreationsLoseATask`, `CreationClash.SharedDescriptorLoops`), all get stacks of their own
exactly if none finds a frame's bit clear between another's test and store and the frames suffice
(`CreationFrames.OwnFramesExactlyWhen`, `SameFrameTwice`), and an entry fresh from `task_create` is
started at its entry address only if that is 0x202 (`IrqStub.FreshNeverStarts`).

## Main results

* `PowerRuns.CoalescingIsTransparent`, `BoundedLatency`, `MetricsAddUp`, `PowerCounts.BufferedInTime`,
  `WakeupsCount`, refined by the hooks of `PowerManager.PowerShell`.
* `HeapMemory.MemoryIsTiled`, `Allocator.MmAlloc` and `MmFree`; `HeapLaws.PayloadsSafe`,
  `LargestNeverGrows`, `FreeThenAllocReuses`.
* `ProcSpec.ProcessCapacity`, `RunInCreationOrder`, `EveryProcessRuns`, `EnteredInRound`, over `ProcTable`.
* `RunRing.Scheduler.TaskCreate`, `ScheduleTimes` with `RoundRobin.EachOnce`, `RunRing.LayoutHolds`.
* `CreationRing.EveryoneInExactlyWhen`, `OneRingUntilSlotRace`, `CreationClash.SharedDescriptorLoops`,
  `CreationFrames.OwnFramesExactlyWhen`.
* `Preemption.AsIfAlone`, refined by `IrqStub.IrqCommonStub`; `IrqStub.FreshNeverStarts`.
* `FrameBitmap.FrameAllocator.PmmAllocFrame`, `NothingBelowTwoMegabytes`.
* `TraceRing.RotationAtHead`, `TraceOrder.TraceInOrder`, `RecordedPayloads`, `ScheduledPeriodic`, refined by
  `TracedScheduler.Drive`; `TraceDisk.ReplayAfterLoad`, `LiveSave.LiveSaveThenLoad`.
* `Console.Screen.VgaPutc` with `Console.LastWriterWins` and `CellBytes`.
* `VirtioSpec.OwnershipHolds`, `VirtioRx.Queue.VirtioNetRecv` and `ReceiveMany`.

The table below has every member that models or states something about the sources, these included.

## Model

| member | source | states |
|---|---|---|
| PowerRuns.CoalescingIsTransparent | RESEARCH-OS/src/power/power.c:66-118 | after any run of key, tick and write events, mode, edit line and screen are those of a shell fed the delivered keys directly (numbers inside `stats` aside), delivered then pending keys are the accepted keys in order, and with an empty ring and no drops that is every key pressed |
| PowerRuns.DeliveredThenPending | RESEARCH-OS/src/power/power.c:66-118 | at every boundary delivered keys followed by the ring are exactly what was there before plus the keys accepted since, and every pressed key is accepted or counted as dropped |
| PowerRuns.NothingDropped | RESEARCH-OS/src/power/power.c:110-116 | nothing was dropped in a run if and only if the accepted keys are all the pressed keys |
| PowerRuns.StepOrder | RESEARCH-OS/src/power/power.c:101-118 | a key is dropped exactly when 255 are pending; any other key is appended behind everything delivered and pending |
| PowerRuns.Reachable | RESEARCH-OS/src/power/power.c:101-166 | from power-up every boundary has an empty ring in Performance mode, a clock below the mode's limit, fewer than 64 buffered writes and balanced metrics |
| PowerRuns.DeliverView | RESEARCH-OS/src/fs/shell.c:17-73 | what a key does to mode, line and screen depends on nothing but mode, line and screen, in particular not on what is queued |
| PowerRuns.RunLooksDirect | RESEARCH-OS/src/fs/shell.c:17-73 | looking like the directly wired shell is kept by every run, drains that change the mode under themselves included |
| PowerRuns.ModeCommands | RESEARCH-OS/src/fs/shell.c:32-37 | delivering a key changes the mode only by entering `perf`, `bal` or `power`, each to its own mode |
| PowerRuns.EraseUndoesKey | RESEARCH-OS/src/fs/shell.c:62-71 | backspace undoes an ordinary key if and only if the line had room for it |
| PowerRuns.OutsideModeChangeReorders | RESEARCH-OS/src/power/power.c:40-45 | if the mode were switched to Performance from outside while keys are pending, the next key would overtake all of them |
| PowerRuns.BoundedLatency | RESEARCH-OS/src/power/power.c:145-166 | whatever else happens, every key now pending is in the shell once the mode's tick limit is reached |
| PowerRuns.DeliveredInTime | RESEARCH-OS/src/power/power.c:6-8 | that limit is 10 ticks for a key queued in Balanced and 50 in Energy Saver |
| PowerRuns.PendingFixesMode | RESEARCH-OS/src/power/power.c:66-81 | while keys stay in the ring, no event changes the mode or removes a key |
| PowerRuns.DrainAccount | RESEARCH-OS/src/power/power.c:73-80 | during a drain every printed statistic has wakeups at most total events; the drain empties the ring into the shell in order |
| PowerRuns.MetricsAddUp | RESEARCH-OS/src/power/power.c:83-214 | on every run delayed = flushed + buffered, total = delivered + pending + dropped + writes, wakeups + pending + buffered is at most total, and every percentage ever printed is at most 100 |
| PowerCounts.TickByNumber | RESEARCH-OS/src/power/power.c:145-166 | a tick below 1, 10 or 50 only counts; at the limit keys and writes are all flushed, flushed equals delayed and the clock restarts |
| PowerCounts.BufferedInTime | RESEARCH-OS/src/power/power.c:145-166 | whatever else happens, every byte buffered now is flushed once the mode's ticks have passed |
| PowerCounts.NothingWaitsLong | RESEARCH-OS/src/power/power.c:145-166 | on any run from power-up no buffered byte waits longer than 50 ticks |
| PowerCounts.WriteByNumber | RESEARCH-OS/src/power/power.c:120-143 | the write that fills the batch of 1, 16 or 64 flushes all of it for one wakeup; any other is only kept; delayed, total and writes count each |
| PowerCounts.WritesByNumber | RESEARCH-OS/src/power/power.c:120-143 | n writes in a row send out (k + n) / batch full batches, one wakeup each, and keep (k + n) mod batch bytes |
| PowerCounts.SimByNumber | RESEARCH-OS/src/fs/shell.c:42-44 | `sim` is one hundred writes |
| PowerCounts.StatsByNumber | RESEARCH-OS/src/power/power.c:187-221 | `stats` shows every metric under its own name, changes none, and shows the saved percentage rounded down |
| PowerCounts.CoalescedCounts | RESEARCH-OS/src/power/power.c:110-116 | over any run the coalesced metric grows by the number of keys queued outside Performance |
| PowerCounts.WakeupsCount | RESEARCH-OS/src/power/power.c:66-118 | while no command runs, wakeups are the keys in Performance, the rings drained and the buffers flushed, one each |
| PowerCounts.TextKey | RESEARCH-OS/src/fs/shell.c:59-73 | an ordinary key is echoed and edits the line: 8 takes one off, others go on up to 255 |
| PowerCounts.EnterKey | RESEARCH-OS/src/fs/shell.c:17-57 | enter is echoed, starts a new line, empties the edit line and prompts |
| PowerCounts.CommandScreen | RESEARCH-OS/src/fs/shell.c:47-53 | `clear` clears the screen and an unknown command is named |
| PowerCounts.ModeShows | RESEARCH-OS/src/power/power.c:40-60 | setting a mode names it and changes nothing else |
| PowerManager.StrCmp | RESEARCH-OS/src/fs/shell.c:9-15 | zero exactly for equal C strings; otherwise the difference of the first two bytes that differ |
| PowerManager.CollectDigits | RESEARCH-OS/src/power/power.c:176-181 | the digits of a 64-bit value fit 20 bytes, least significant first, without a leading zero |
| PowerManager.PrintNum | RESEARCH-OS/src/power/power.c:171-185 | prints the decimal numeral of any 64-bit value, without leading zeros |
| PowerManager.PendingPush | RESEARCH-OS/src/power/power.c:111-115 | storing at the head of the 256-slot ring appends to its contents |
| PowerManager.PendingPop | RESEARCH-OS/src/power/power.c:74-75 | reading at the tail removes the oldest key |
| PowerManager.PendingFull | RESEARCH-OS/src/power/power.c:111-112 | the ring refuses a key exactly when it holds 255 |
| PowerManager.PowerShell.constructor | RESEARCH-OS/src/power/power.c:14-38 | the statics at power-up represent the initial state |
| PowerManager.PowerShell.PowerSetMode | RESEARCH-OS/src/power/power.c:40-45 | sets the mode and prints its name |
| PowerManager.PowerShell.PowerPrintStats | RESEARCH-OS/src/power/power.c:187-221 | prints mode, metrics and saved percentage as they stand |
| PowerManager.PowerShell.FlushIoBuffer | RESEARCH-OS/src/power/power.c:83-95 | an empty buffer costs nothing; otherwise one wakeup flushes all of it |
| PowerManager.PowerShell.PowerIoWrite | RESEARCH-OS/src/power/power.c:120-143 | buffers the byte and flushes at the mode's batch size |
| PowerManager.PowerShell.Simulate | RESEARCH-OS/src/fs/shell.c:42-44 | one hundred writes, each flushing as it would alone |
| PowerManager.PowerShell.FlushKeyboardQueue | RESEARCH-OS/src/power/power.c:66-81 | the drain loop terminates although it re-enters the shell, and equals the drain of the abstract queue |
| PowerManager.PowerShell.PowerKeyboardHook | RESEARCH-OS/src/power/power.c:101-118 | dispatches at once in Performance, queues otherwise, drops at 255 |
| PowerManager.PowerShell.PowerTickHook | RESEARCH-OS/src/power/power.c:145-166 | flushes keys, then writes, when the 1, 10 or 50 ticks are reached, leaving ring and buffer empty and the clock at 0; before that nothing but the clock moves |
| PowerManager.PowerShell.Typed | RESEARCH-OS/src/fs/shell.c:23-47 | the comparisons of the command line with a command word agree with equality of C strings |
| PowerManager.PowerShell.Dispatch | RESEARCH-OS/src/fs/shell.c:21-53 | the in-place command buffer selects the branch its C string names |
| PowerManager.PowerShell.ExecuteCommand | RESEARCH-OS/src/fs/shell.c:17-57 | runs the entered line, empties it and prompts |
| PowerManager.PowerShell.ShellHandleKey | RESEARCH-OS/src/fs/shell.c:59-73 | line editing in a 255-character buffer: append, erase, enter |
| HeapLaws.AllocTakesFirstFit | modular-kernel/src/mm.c:22-50 | an allocation succeeds if and only if some free block holds the aligned size, takes the first such block, and leaves the heap alone when it fails |
| HeapLaws.AllocGivesBlock | modular-kernel/src/mm.c:28-44 | the block handed out was free, is live, exceeds the aligned request by at most 8 bytes, and no other block changes status or size |
| HeapLaws.AllocKeepsOrder | modular-kernel/src/mm.c:29-43 | the free list keeps its order: the block taken leaves it, or its remainder, 8 bytes of header behind it, stands in its place |
| HeapLaws.AllocHoldsRequest | modular-kernel/src/mm.c:24-25 | the block holds the request for every size up to 2^32 - 8; above that the size computation wraps and the block has at most 8 bytes |
| HeapLaws.WrappedRequest | modular-kernel/src/mm.c:24-25 | a request for 2^32 - 1 bytes from the fresh 512 KB heap succeeds with a block of no bytes |
| HeapLaws.FreeTakesBlock | modular-kernel/src/mm.c:52-58 | freeing a live block makes exactly that block free |
| HeapLaws.FreeThenAllocReuses | modular-kernel/src/mm.c:52-58 | a block just freed is what the next request that fits it receives |
| HeapLaws.RunKeepsInv | modular-kernel/src/mm.c:15-58 | over any run of allocations and valid frees the blocks tile the heap and the free list stays duplicate-free |
| HeapLaws.PayloadsSafe | modular-kernel/src/mm.c:15-58 | over any run from mm_init two live payloads are disjoint, at offsets divisible by 8 and inside the heap |
| HeapLaws.RunRefines | modular-kernel/src/mm.c:29-33 | block boundaries are never lost: every later block lies inside one earlier block |
| HeapLaws.LargestNeverGrows | modular-kernel/src/mm.c:22-58 | once no block is large enough for a request, no run of allocations and frees makes it succeed |
| HeapLaws.BoundaryPersists | modular-kernel/src/mm.c:29-33 | no later block covers an existing boundary |
| HeapLaws.WholeHeapLost | modular-kernel/src/mm.c:15-58 | a small allocation freed again leaves everything free, yet a request for the whole heap that succeeded before now fails |
| HeapMemory.MemoryIsTiled | modular-kernel/src/mm.c:8-20 | the headers in memory walked from offset 0 by 8 + size meet every block and end exactly at the end of the heap |
| HeapMemory.HeaderWordsAre | modular-kernel/src/mm.c:8-11 | a header is two words: the size, then in a free block the address of the next free header or null |
| HeapMemory.CutRepresents | modular-kernel/src/mm.c:29-37 | the stores of a split leave memory representing the split heap |
| HeapMemory.CutSparesPayloads | modular-kernel/src/mm.c:29-37 | none of those stores touches a live payload word |
| HeapMemory.PayloadWriteKeeps | modular-kernel/src/mm.c:8-11 | a client store inside a live payload disturbs no header and no link |
| HeapMemory.Allocator.constructor | modular-kernel/src/mm.c:15-20 | mm_init makes one free block of the whole heap, whatever memory held |
| HeapMemory.Allocator.Find | modular-kernel/src/mm.c:26-48 | the search through links in memory terminates at the first fit and its predecessor |
| HeapMemory.Allocator.SplitBlock | modular-kernel/src/mm.c:29-37 | splits in place, replacing the block by its remainder in the list; live payloads keep their words |
| HeapMemory.Allocator.UnlinkBlock | modular-kernel/src/mm.c:38-43 | unlinks in place; live payloads keep their words |
| HeapMemory.Allocator.MmAlloc | modular-kernel/src/mm.c:22-50 | returns the payload address of the first-fit block, or null, and keeps every live payload word |
| HeapMemory.Allocator.MmFree | modular-kernel/src/mm.c:52-58 | null is ignored; a live block goes to the front of the list; payload words are kept |
| HeapMemory.Allocator.Store | modular-kernel/src/mm.c:8-11 | a client write changes one payload word and keeps the heap valid |
| HeapMemory.PayloadsAligned | modular-kernel/src/mm.c:24-44 | payload addresses are divisible by 8 and blocks end below 2^32 |
| ProcSpec.ProcessCapacity | modular-kernel/src/proc.c:15-47 | from mm_init on a heap of any size H, a multiple of 8, exactly floor(H / 4168) creations succeed, 125 for 512 KB |
| ProcSpec.CreateGivesBlocks | modular-kernel/src/proc.c:17-29 | a created process owns two fresh live blocks, one for its record and one for its stack; no other live block changes |
| ProcSpec.RecordLost | modular-kernel/src/proc.c:17-29 | the record is taken first: when only the stack does not fit, creation fails and the record's block stays taken |
| ProcSpec.ScheduleRunsInOrder | modular-kernel/src/proc.c:49-63 | a scheduling round enters exactly the first process not yet run, or none |
| ProcSpec.RunInCreationOrder | modular-kernel/src/proc.c:49-63 | over any run of creations and rounds processes are entered once each, in creation order |
| ProcSpec.EveryProcessRuns | modular-kernel/src/proc.c:49-63 | a waiting process has run after at most as many rounds as the list was long, even if creation goes on |
| ProcSpec.RoundsGoRound | modular-kernel/src/proc.c:49-56 | with n processes and no creation k rounds lead from process c to process (c + k) mod n, and from none to (k - 1) mod n |
| ProcSpec.EnteredInRound | modular-kernel/src/proc.c:49-63 | a ready process is entered in exactly the one of the next n rounds that stops at it, not before, and has terminated after it |
| ProcTable.ProcessesDisjoint | modular-kernel/src/proc.c:17-31 | records, stacks and headers of listed processes never share a byte |
| ProcTable.RecordWords | modular-kernel/src/proc.c:22-44 | process_t word by word: pid, state code 0 to 3, entry, both stack registers at the top of the stack, six zeros, EFLAGS 0x202, zero, and the next record or null |
| ProcTable.ProcessTable.ProcCreate | modular-kernel/src/proc.c:15-47 | success appends one ready process with the given entry, its own blocks and the whole initial context: both stack registers at the top of its stack, EFLAGS 0x202, the other registers and the page directory zero; failure leaves the process list unchanged |
| ProcTable.ProcessTable.FindLast | modular-kernel/src/proc.c:41-43 | the walk along next pointers in memory ends at the last process |
| ProcTable.ProcessTable.DispatchNext | modular-kernel/src/proc.c:49-59 | moves to the next process, wrapping at the end, and starts it, with state word 0, only if it is ready |
| ProcTable.ProcessTable.FinishCurrent | modular-kernel/src/proc.c:61-61 | a process that returned is terminated, with state word 3 |
| RoundRobin.EachOnce | REPLAY-OS/kernel/task.c:45-51 | with n runnable entries any n consecutive choices pick each exactly once |
| RoundRobin.PickPeriod | REPLAY-OS/kernel/task.c:45-64 | the choices repeat with period n |
| RoundRobin.NextRank | REPLAY-OS/kernel/task.c:45-51 | the choice after a runnable entry is the next runnable one round the ring |
| RunRing.Scheduler.constructor | REPLAY-OS/kernel/task.c:10-18 | the running kernel becomes a ring of one |
| RunRing.Scheduler.SchedulerNext | REPLAY-OS/kernel/task.c:45-51 | with some runnable entry the loop terminates, at the first ready or running one after the current; all it passes are sleeping or exited |
| RunRing.Scheduler.SchedulerSchedule | REPLAY-OS/kernel/task.c:55-64 | parks one stack pointer, moves to the next runnable entry, returns its stack pointer; ring and states are unchanged |
| RunRing.Scheduler.ScheduleTimes | REPLAY-OS/kernel/task.c:45-64 | n interrupts in a row choose the next n runnable entries round the ring, one after the other |
| RunRing.EachChosenOnce | REPLAY-OS/kernel/task.c:45-64 | with n runnable entries those n choices are each of them once |
| RunRing.Scheduler.Preempted | REPLAY-OS/kernel/task.c:55-64 | any number of timer interrupts, with other threads of control writing elsewhere, keeps the ring one cycle, changes nothing in descriptors but parked stack pointers, and leaves the protected words alone |
| RunRing.InsertKeepsRing | REPLAY-OS/kernel/task.c:41-42 | own link first, then the head's: the ring grows by one entry behind the head |
| RunRing.Scheduler.TaskCreate | REPLAY-OS/kernel/task.c:20-43 | with timer interrupts between any two statements the ring is one cycle of the published entries throughout and finally holds one more, at 0x110000 + 24 * pid, ready, parked 3928 bytes into a page of its own on the untouched twenty words of its initial frame; no other entry's pid or state changes |
| RunRing.Scheduler.PushInitialFrame | REPLAY-OS/kernel/task.c:25-38 | twenty words below the end-of-page pointer: fifteen zeros, the entry address, CS 0x18, RFLAGS 0x202, the RSP word and SS 0x20 |
| CreationRing.OneRingUntilSlotRace | REPLAY-OS/kernel/task.c:20-43 | after every load and store of any run of any number of overlapping calls memory is one ring, given entry by entry, unless one call has computed its descriptor between another's lines 21 and 22 |
| CreationRing.EveryoneInExactlyWhen | REPLAY-OS/kernel/task.c:20-43 | when all calls have returned, memory is one ring with every old entry and, for every call, a descriptor of its own, if and only if no call computed its descriptor between another's line 21 and the end of its line 22 and none published after another had published since it read the head's link |
| CreationRing.DescriptorsOwn | REPLAY-OS/kernel/task.c:21-40 | without a race for descriptors every call that returned left its own: pid and address agree, ready, parked on the frame it was given |
| CreationRing.NeverLost | REPLAY-OS/kernel/task.c:41-42 | whoever raced for the head's link, the old entries and the one published last are in the ring |
| CreationRing.OverlappingCreationsLoseATask | REPLAY-OS/kernel/task.c:41-42 | of two calls that raced for the head's link alone exactly the one that published first is lost |
| CreationClash.SharedDescriptorLoops | REPLAY-OS/kernel/task.c:21-42 | from any ring, one call that runs between another's lines 21 and 22 ends with the head leading to the shared descriptor and that to itself: no ring at all |
| CreationFrames.OwnFramesExactlyWhen | REPLAY-OS/kernel/pmm.c:27-35 | when all calls have returned, each has a frame of its own, none null, if and only if no call found a frame's bit clear between another's successful test and its store and there were as many free frames as calls |
| CreationFrames.SameFrameTwice | REPLAY-OS/kernel/pmm.c:29-30 | two calls that test the same clear bit before either sets it get the same frame |
| RunRing.FramesToHandOut | REPLAY-OS/kernel/pmm.c:9-25 | 128 MB leave 32256 frames to hand out |
| RunRing.LayoutHolds | REPLAY-OS/kernel/task.c:20-43 | under 128 MB bitmap, descriptors and stacks never overlap, descriptors stay below 2 MB and stacks inside the identity map |
| FrameBitmap.UsedIsBit | REPLAY-OS/kernel/pmm.c:29-29 | frame i is bit i mod 8, from the least significant, of byte i / 8 |
| FrameBitmap.MarkUsed | REPLAY-OS/kernel/pmm.c:30-30 | setting a frame's bit changes that frame only |
| FrameBitmap.UnmarkUsed | REPLAY-OS/kernel/pmm.c:37-39 | clearing a frame's bit changes that frame only |
| FrameBitmap.UnmarkRestores | REPLAY-OS/kernel/pmm.c:27-40 | freeing a frame just handed out restores the bitmap byte for byte |
| FrameBitmap.FrameAllocator.PmmInit | REPLAY-OS/kernel/pmm.c:9-25 | exactly the frames from 512 on are free when the frame count is a multiple of 8; the bits of a last partial byte keep what memory held |
| FrameBitmap.FrameAllocator.PmmAllocFrame | REPLAY-OS/kernel/pmm.c:27-35 | hands out the least free frame and marks only it |
| FrameBitmap.FrameAllocator.PmmFreeFrame | REPLAY-OS/kernel/pmm.c:37-40 | adds exactly that frame to the free ones |
| FrameBitmap.NullMeansExhausted | REPLAY-OS/kernel/pmm.c:27-35 | a null result means exhaustion if and only if frame 0, whose address is null, is not the one handed out |
| FrameBitmap.NullWithMemoryLeft | REPLAY-OS/kernel/pmm.c:27-40 | after pmm_init, freeing frame 0 makes the next allocation return null although every frame from 512 on is free |
| FrameBitmap.NothingBelowTwoMegabytes | REPLAY-OS/kernel/pmm.c:20-40 | while frames below 512 are never freed no run yields an address below 2 MB, and null means no frame is free |
| ContextSwitch.Machine.SaveFrame | REPLAY-OS/kernel/interrupt.asm:150-165 | processor and stub leave the 22-word frame of the interrupted registers and change no other word |
| ContextSwitch.FrameLayout | REPLAY-OS/kernel/interrupt.asm:150-165 | which register lies at which of the 22 words, the vector 120 bytes up |
| ContextSwitch.Machine.RestoreRegisters | REPLAY-OS/kernel/interrupt.asm:178-195 | the pops, the two skipped words and iretq restore the registers a frame holds |
| Preemption.InterruptInvisible | REPLAY-OS/kernel/interrupt.asm:150-195 | an interrupt that resumes a saved or the same thread of control changes no registers and no stack of any of them, fresh entries in the ring or not |
| Preemption.ResumeRestores | REPLAY-OS/kernel/interrupt.asm:174-195 | a saved frame is restored word for word when its owner is next chosen |
| Preemption.WorkSeenByOne | REPLAY-OS/kernel/interrupt.asm:150-195 | a step confined to its own stack is seen by its owner alone |
| Preemption.AsIfAlone | REPLAY-OS/kernel/interrupt.asm:150-195 | for any interleaving each thread of control that is running or has been saved ends with the registers and stack its own steps alone would have produced, with fresh entries in the ring that are not yet chosen |
| Preemption.RunKeepsFresh | REPLAY-OS/kernel/interrupt.asm:150-195 | over such a run every fresh entry stays parked where it was and no word outside the saved stacks changes |
| IrqStub.IrqCommonStub | REPLAY-OS/kernel/interrupt.asm:150-195 | the stub over the run ring and the one memory in which entries are created performs exactly one such interrupt: vector 32 switches to the next runnable entry, saved or fresh, any other vector resumes the same |
| IrqStub.CreatedIsFresh | REPLAY-OS/kernel/task.c:25-40 | what task_create leaves is, for the stub, an entry parked on its twenty words |
| IrqStub.FreshRestores | REPLAY-OS/kernel/interrupt.asm:178-195 | popping 22 words over those twenty gives RIP 0x202, the RSP word as CS and RFLAGS 0x20: RIP is the entry address if and only if that is 0x202 |
| IrqStub.FreshNotSaved | REPLAY-OS/kernel/interrupt.asm:178-195 | no such frame is one the stub could have saved within its page |
| IrqStub.FreshNeverStarts | REPLAY-OS/kernel/interrupt.asm:167-195 | however long the saved threads of control run first, choosing a fresh entry starts it with RIP 0x202, so at its entry address if and only if that is 0x202 |
| TraceRing.BytesRoundTrip | REPLAY-OS/kernel/trace.c:31-34 | a field stored little-endian reads back |
| TraceRing.BytesAreDigits | REPLAY-OS/kernel/trace.c:31-34 | byte j of a stored field is its j-th digit in base 256, lowest first |
| TraceRing.EventLayout | REPLAY-OS/kernel/trace.c:31-34 | type from byte 0, tick from byte 8, payload from byte 16 of an event; bytes 4 to 7 stay |
| TraceRing.RecordExtends | REPLAY-OS/kernel/trace.c:31-39 | storing at head keeps the last events, the new one included, in their slots |
| TraceRing.Trace.TraceRecord | REPLAY-OS/kernel/trace.c:28-40 | after n events count is min(n, 1000), head is n mod 1000 and the buffer holds the last events; nothing is recorded while stopped |
| TraceRing.RotationAtHead | REPLAY-OS/kernel/trace.c:28-40 | the buffer is the last events in order, rotated so that the oldest stands at head |
| TraceRing.SlotContents | REPLAY-OS/kernel/replay.c:21-28 | which event the reader finds in each slot |
| TraceRing.ChronologicalExactlyWhen | REPLAY-OS/kernel/replay.c:11-28 | reading from slot 0 is chronological if and only if at most 1000 events or a multiple of 1000 were recorded |
| TraceRing.DrainIsBufferOrder | REPLAY-OS/kernel/replay.c:11-28 | a replay hands out every kept slot once in buffer order and then stops |
| TraceRing.Replay.ReplayStart | REPLAY-OS/kernel/replay.c:11-15 | a replay begins at slot 0 |
| TraceRing.Replay.ReplayGetNext | REPLAY-OS/kernel/replay.c:21-28 | call k hands out slot k, which on an intact ring holds event InSlot(n, k) of the history, the successor of the one before unless slot k is the head of an overwritten ring; null and the end of replaying come exactly after count slots |
| TraceOrder.TraceInOrder | REPLAY-OS/kernel/trace.c:28-40 | over any run ticks never decrease and every scheduler event directly follows the timer event of its tick |
| TraceOrder.RecordedPayloads | REPLAY-OS/kernel/trace.c:28-40 | while recording runs on, the type-1 payloads are the scancodes, the type-2 payloads the system-call numbers and the type-0 payloads the ticks counted, in order and none missing |
| TraceOrder.ScheduledIsThree | REPLAY-OS/kernel/trace.c:28-40 | the scheduler's records are those of type 3 |
| TraceOrder.RecordingFollows | REPLAY-OS/kernel/trace.c:18-29 | recording is on exactly as last started or stopped, and while it is off no event is recorded |
| TraceOrder.KeptInOrder | REPLAY-OS/kernel/trace.c:28-40 | the same holds in the ring: ticks never decrease among kept events, and every kept scheduler event but the oldest kept one follows its timer event |
| TracedScheduler.TickRecord | REPLAY-OS/kernel/timer.c:17-20 | the timer callback records the counted tick |
| TracedScheduler.TracedSchedule | REPLAY-OS/kernel/task.c:55-64 | scheduler_schedule on the run ring moves to the next runnable entry and records that entry's pid |
| TracedScheduler.TimerInterrupt | REPLAY-OS/kernel/timer.c:17-20 | the code of a timer interrupt, tick, record, switch and record, is one step of the trace model with the run ring's pids |
| TracedScheduler.Drive | REPLAY-OS/kernel/trace.c:18-40 | any sequence of timer, keyboard, system-call, start and stop events runs as the trace model does and keeps the recorded trace in order; while recording runs on, the trace gains exactly the scancodes and the system-call numbers |
| TraceOrder.ScheduledInRingOrder | REPLAY-OS/kernel/task.c:55-64 | while recording runs on, the recorded pids follow the run ring |
| TraceOrder.ScheduledPeriodic | REPLAY-OS/kernel/task.c:55-64 | with n runnable entries the recorded pids have period n |
| TraceDisk.SectorsCover | REPLAY-OS/kernel/trace_disk.c:16-19 | the chunks cover the events with 1 to 512 bytes to spare |
| TraceDisk.SectorsInBuffer | REPLAY-OS/kernel/trace_disk.c:16-19 | they stay inside the 24000-byte buffer if and only if there are at most 981 events |
| TraceDisk.SavedSectors | REPLAY-OS/kernel/trace_disk.c:8-21 | saving writes the count, the chunks and no other sector |
| TraceDisk.TraceSectors | REPLAY-OS/kernel/trace_disk.c:11-18 | byte by byte: the count in sector 1000, lowest byte first and zeros behind, the event bytes from sector 1001 on |
| TraceDisk.WorkloadSectors | REPLAY-OS/kernel/workload.c:5-13 | sectors 5000 to 5009 get the bytes 0 to 255 twice |
| TraceDisk.SaveThenLoad | REPLAY-OS/kernel/trace_disk.c:8-34 | from a disk holding a saved trace, loading into any memory restores the count and every byte of the events |
| TraceDisk.RecordsComeBack | REPLAY-OS/kernel/trace_disk.c:8-34 | hence every event reads back |
| TraceDisk.SaveWorkLoad | REPLAY-OS/kernel/workload.c:5-13 | the same with any number of workload_io runs in between |
| TraceDisk.ReplayAfterLoad | REPLAY-OS/kernel/replay.c:21-28 | record, save, other disk work, load: slot i then holds the very event the ring held there, so a replay yields the recorded events |
| TraceDisk.LoadStaysInBuffer | REPLAY-OS/kernel/trace_disk.c:23-34 | loading writes past the buffer exactly above 981 events |
| TraceDisk.Store.TraceSave | REPLAY-OS/kernel/trace_disk.c:8-21 | leaves the trace on the disk |
| TraceDisk.Store.TraceLoad | REPLAY-OS/kernel/trace_disk.c:23-34 | takes the count from sector 1000 and copies the sectors it implies |
| TraceDisk.Store.WorkloadIo | REPLAY-OS/kernel/workload.c:5-13 | writes the ten workload sectors |
| LiveSave.Saver.WriteChunk | REPLAY-OS/kernel/ide.c:32-48 | with events recorded between any two words, a sector holds the starting bytes of every slot no event went to |
| LiveSave.Saver.TraceSave | REPLAY-OS/kernel/trace_disk.c:8-21 | saving while recording goes on writes the starting count and, for every slot no event went to meanwhile, its starting bytes; no sector beyond the 48 changes |
| LiveSave.LiveSaveThenLoad | REPLAY-OS/kernel/trace_disk.c:8-34 | loading that disk gives back every event of a slot that was spared |
| Console.LastWriterWins | RESEARCH-OS/src/drivers/vga.c:49-66 | every cell of the terminal shows the last character that landed on it in the colour of that time, or what was there before, or a blank in the colour of the character that began the row |
| Console.CellBytes | RESEARCH-OS/src/drivers/vga.c:10-12 | the low byte of a cell is the character that landed last, the high byte the colour of that time; an unwritten cell of a new row is a blank |
| Console.ScrolledRowsFinal | RESEARCH-OS/src/drivers/vga.c:32-47 | rows that left the window never change again |
| Console.ShowsScrolled | RESEARCH-OS/src/drivers/vga.c:32-47 | moving 24 rows up and blanking the last is moving the 25-row window one row down |
| Console.PrintIsShow | RESEARCH-OS/src/drivers/vga.c:68-72 | printing a string is writing its characters in the colour in force |
| Console.Screen.constructor | RESEARCH-OS/src/drivers/vga.c:14-18 | a cleared screen with the cursor at the top left |
| Console.Screen.VgaClear | RESEARCH-OS/src/drivers/vga.c:24-30 | blanks the visible rows and leaves the cursor |
| Console.Screen.VgaSetColor | RESEARCH-OS/src/drivers/vga.c:20-22 | the colour of everything written from now on is fg + 16 * bg; nothing on screen changes |
| Console.Screen.ShiftUp | RESEARCH-OS/src/drivers/vga.c:35-44 | the in-place loops move every row up by one and blank the last |
| Console.Screen.VgaScroll | RESEARCH-OS/src/drivers/vga.c:32-47 | scrolls exactly when the cursor has left the window |
| Console.Screen.VgaPutc | RESEARCH-OS/src/drivers/vga.c:49-66 | every store is inside the array, the screen equals the last 25 rows of the unbounded terminal, the character is the low and the colour the high byte of the cell at the old cursor, one row up if the screen scrolled, and the cursor moves on |
| Console.Screen.VgaPrint | RESEARCH-OS/src/drivers/vga.c:68-72 | prints the characters before the NUL |
| Console.UpToFirstNul | RESEARCH-OS/src/drivers/vga.c:68-72 | those are the characters up to the first 0 |
| VirtioSpec.OwnershipHolds | MDK/drivers/net/virtio_net.c:62-107 | under any interleaving of driver and device moves each of the sixteen ids is in exactly one place, once, and no unread slot or frame is overwritten |
| VirtioSpec.InitialOk | MDK/drivers/net/virtio_net.c:62-68 | offering all sixteen buffers in order establishes the ownership invariant |
| VirtioSpec.IndicesSixteenApart | MDK/drivers/net/virtio_net.c:68-107 | the available index equals the consumed index plus 16 modulo 2^16 if and only if the driver holds no buffer |
| VirtioSpec.NextFrame | MDK/drivers/net/virtio_net.c:98-100 | the next used element names the oldest completed frame not yet returned, still intact in its buffer |
| VirtioSpec.WriteByteOk | MDK/drivers/net/virtio_net.c:62-67 | a device store into a buffer it holds disturbs no unread frame |
| VirtioSpec.StageOk | MDK/drivers/net/virtio_net.c:97-99 | a device store into the used ring disturbs no unread element |
| VirtioSpec.OfferOk | MDK/drivers/net/virtio_net.c:103-104 | the driver's store into the available ring disturbs no entry the device has yet to take |
| VirtioRx.Queue.constructor | MDK/drivers/net/virtio_net.c:57-68 | sixteen device-writable buffers of 1536 bytes at multiples of 1536, all offered in order |
| VirtioRx.Queue.DeviceRuns | MDK/drivers/net/virtio_net.c:95-107 | whatever the device does between two statements, rings and ownership stay valid and the driver's view only grows |
| VirtioRx.Queue.CopyFrame | MDK/drivers/net/virtio_net.c:100-101 | copies the frame without its header to the caller's pointer while the device works on other buffers, and changes nothing behind it |
| VirtioRx.CopyStaysInRoom | MDK/dist/cluster_state.c:39-48 | what lies behind the caller's object is untouched if the frame fits it and overwritten with frame bytes if it does not |
| VirtioRx.Queue.Recycle | MDK/drivers/net/virtio_net.c:102-105 | gives the buffer back to the device in three steps, interrupted anywhere |
| VirtioRx.Queue.VirtioNetRecv | MDK/drivers/net/virtio_net.c:95-107 | with the device free to act between any two statements, returns 0 with nothing consumed, or the oldest unreturned frame without its 10-byte header, once, and restores the sixteen-apart indices |
| VirtioRx.Queue.ReceiveMany | MDK/drivers/net/virtio_net.c:95-107 | after any number of calls the frames handed over are exactly the completed ones from the first unreturned on, each once, in used order |

## Left out

- Port I/O, interrupt controller and timer programming, serial output and IDE handshakes; the disk is a map from sector number to 512 bytes.
- What the processor does after it has loaded the unusable frame of a fresh entry (`IrqStub.FreshNeverStarts`); runs are followed until such an entry is chosen.
- RunRing.Scheduler.TaskCreate: assumes a frame is free and no other creation under way; overlapping calls and the null frame are in `CreationRing` and `CreationFrames`, without the words of the stack; the pushed RSP word is an unsequenced expression in C and left arbitrary.
- RunRing.Scheduler.SchedulerSchedule: a call before `scheduler_init` (a null `current_task`) is not modelled; its trace record is in `TracedScheduler`.
- CreationFrames.OwnFramesExactlyWhen: setting a bit is one store, and no other code frees or takes frames meanwhile, as none in the repository does.
- IrqStub.IrqCommonStub: the 22 words at every parked stack pointer are assumed to lie in memory, which fails only for a fresh entry in the last page.
- Preemption.AsIfAlone: global data shared between tasks is not part of a task's state; stacks are disjoint and long enough for a frame.
- ProcTable.ProcessTable.DispatchNext: the entry function runs between this method and FinishCurrent and must not schedule; nested `proc_yield` is not modelled.
- ProcTable.ProcessTable.ProcCreate: `next_pid` is assumed below the 32-bit signed maximum, where C's increment is undefined.
- HeapMemory.Allocator.constructor: the static array is assumed 8-aligned, not at address 0, and not to reach the last byte of the 32-bit address space; its size is a multiple of 8, as 512 KB is.
- HeapMemory.Allocator.MmFree: freeing twice or freeing a foreign pointer is excluded by precondition.
- PowerManager.PowerShell.PowerPrintStats: the printed block is one record of its numbers, not its text; `PrintNum` shows how a number is printed. 64-bit metric overflow is not modelled.
- The `default` branch of `power_get_mode_str`, unreachable for the three modes.
- VirtioRx.Queue.VirtioNetRecv: the caller's pointer is assumed to have 1526 bytes of memory from it on, whatever object is there, none of it the queue's; the call before initialisation, the transmit queue, physical ring placement and queue-size negotiation are not modelled. A frame of exactly 10 bytes also returns 0.
- TraceRing.Trace.TraceRecord: the ring invariant is not claimed after a load, which sets the count but not the head; the `pid` field, never written, is not read.
- LiveSave.Saver.TraceSave: nothing is claimed of a slot that took an event meanwhile; it may mix two events. A command that stops or starts recording cannot run meanwhile.
- TraceDisk.Store.TraceLoad: the sectors implied by the count on disk must fit memory.
- Bump allocators, ramfs, keyboard tables, descriptor-table setup, page-mapping stubs, the other VGA drivers and boot code.
- MDK's cluster layer: not part of this model.
