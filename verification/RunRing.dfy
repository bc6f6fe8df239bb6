/**
 The scheduler of REPLAY-OS (task.c): task descriptors in a table of memory, linked into one
 circle through `next`. Creation publishes a task with one store while the timer may fire
 between any two statements; scheduler_next walks the circle.
 */
module RunRing {
  import opened FrameBitmap
  import opened RoundRobin

  const TABLE := 0x110000
  const DESCRIPTOR_SIZE := 24
  const PAGE_WORDS := 512
  const ENTRY_WORDS := 20        // five iretq words and fifteen registers

  datatype TaskState = TaskRunning | TaskReady | TaskSleeping | TaskExited

  datatype Desc = Desc(pid: nat, state: TaskState, stackPtr: nat, next: nat)

  function Address(slot: nat): nat {
    TABLE + slot * DESCRIPTOR_SIZE
  }

  predicate Runnable(d: Desc) {
    d.state == TaskReady || d.state == TaskRunning
  }

  function Succ(i: nat, n: nat): (j: nat)
    requires i < n
    ensures j < n
  {
    if i + 1 < n then i + 1 else 0
  }

  ghost predicate Links(desc: map<nat, Desc>, ring: seq<nat>, i: nat) {
    i < |ring| ==> ring[i] in desc && desc[ring[i]].next == ring[Succ(i, |ring|)]
  }

  /** Following `next` from the list head visits `ring` and returns to the head. */
  ghost predicate IsRing(desc: map<nat, Desc>, ring: seq<nat>) {
    && ring != []
    && (forall i: nat {:trigger Links(desc, ring, i)} :: Links(desc, ring, i))
    && (forall i, j :: 0 <= i < j < |ring| ==> ring[i] != ring[j])
  }

  ghost function RunFlags(desc: map<nat, Desc>, ring: seq<nat>): (run: seq<bool>)
    ensures |run| == |ring|
  {
    seq(|ring|, i requires 0 <= i < |ring| => ring[i] in desc && Runnable(desc[ring[i]]))
  }

  /** Inserting after the head: first the new task's own link, then the head's. */
  ghost function Inserted(ring: seq<nat>, task: nat): seq<nat>
    requires ring != []
  {
    [ring[0], task] + ring[1..]
  }

  lemma InsertKeepsRing(desc: map<nat, Desc>, ring: seq<nat>, task: nat)
    requires IsRing(desc, ring) && task !in ring && task in desc
    requires Links(desc, ring, 0) && desc[task].next == desc[ring[0]].next
    ensures IsRing(desc[ring[0] := desc[ring[0]].(next := task)], Inserted(ring, task))
  {
    var after := desc[ring[0] := desc[ring[0]].(next := task)];
    var all := Inserted(ring, task);
    forall i: nat ensures Links(after, all, i) {
      if 2 <= i < |all| { assert Links(desc, ring, i - 1); }
    }
  }

  lemma UnlistedUpdate(desc: map<nat, Desc>, ring: seq<nat>, task: nat, d: Desc)
    requires IsRing(desc, ring) && task !in ring
    ensures IsRing(desc[task := d], ring) && RunFlags(desc[task := d], ring) == RunFlags(desc, ring)
  {
    var after := desc[task := d];
    forall i: nat ensures Links(after, ring, i) { assert Links(desc, ring, i); }
  }

  /** Saving a stack pointer changes neither links nor states. */
  lemma SaveKeepsRing(desc: map<nat, Desc>, ring: seq<nat>, at: nat, sp: nat)
    requires IsRing(desc, ring) && at < |ring|
    ensures Links(desc, ring, at)
    ensures var after := desc[ring[at] := desc[ring[at]].(stackPtr := sp)];
            IsRing(after, ring) && RunFlags(after, ring) == RunFlags(desc, ring)
  {
    assert Links(desc, ring, at);
    var after := desc[ring[at] := desc[ring[at]].(stackPtr := sp)];
    forall i: nat ensures Links(after, ring, i) { assert Links(desc, ring, i); }
  }

  /** `after` differs from `desc` at most in the parked stack pointers of ring members. */
  ghost predicate Rescheduled(desc: map<nat, Desc>, after: map<nat, Desc>, ring: seq<nat>) {
    && after.Keys == desc.Keys
    && forall a :: a in desc ==> after[a] == if a in ring then desc[a].(stackPtr := after[a].stackPtr) else desc[a]
  }

  /** A timer interrupt leaves everyone as runnable as before, so successive choices follow RoundRobin.Pick. */
  lemma RescheduledKeepsFlags(desc: map<nat, Desc>, after: map<nat, Desc>, ring: seq<nat>)
    requires Rescheduled(desc, after, ring)
    ensures RunFlags(after, ring) == RunFlags(desc, ring)
  {}

  lemma RescheduledTwice(a: map<nat, Desc>, b: map<nat, Desc>, c: map<nat, Desc>, ring: seq<nat>)
    requires Rescheduled(a, b, ring) && Rescheduled(b, c, ring)
    ensures Rescheduled(a, c, ring)
  {}

  /** No task but `task` has a new pid or state; links and parked stack pointers may have moved. */
  ghost predicate SameTasks(desc: map<nat, Desc>, after: map<nat, Desc>, task: nat) {
    forall a :: a in desc && a != task ==> a in after && after[a].pid == desc[a].pid && after[a].state == desc[a].state
  }

  lemma StillSame(start: map<nat, Desc>, desc: map<nat, Desc>, after: map<nat, Desc>, ring: seq<nat>, task: nat)
    requires SameTasks(start, desc, task) && Rescheduled(desc, after, ring) && task !in ring
    ensures SameTasks(start, after, task) && (task in desc ==> task in after && after[task] == desc[task])
  {}

  /** Every parked stack pointer is a multiple of 8. */
  ghost predicate WordAligned(desc: map<nat, Desc>, ring: seq<nat>, current: nat) {
    forall a :: a in ring && a in desc && a != current ==> desc[a].stackPtr % 8 == 0
  }

  /** The words task_create pushes, from the lowest address up: registers, RIP, CS, RFLAGS, RSP, SS. */
  ghost predicate IsInitialFrame(f: seq<nat>, entry: nat, rsp: nat) {
    && |f| == ENTRY_WORDS && (forall k :: 0 <= k < 15 ==> f[k] == 0)
    && f[15] == entry && f[16] == 0x18 && f[17] == 0x202 && f[18] == rsp && f[19] == 0x20
  }

  function Zeros(count: nat): (z: seq<nat>)
    ensures |z| == count
  {
    seq(count, i => 0)
  }

  lemma MoreZeros(count: nat, rest: seq<nat>)
    ensures [0] + (Zeros(count) + rest) == Zeros(count + 1) + rest
  {}

  /** Word index of the initial stack pointer in page f. */
  function InitialTop(f: nat): nat {
    f * PAGE_WORDS + 511 - ENTRY_WORDS
  }

  /** Two arrays, possibly of different element types, are different objects. */
  ghost predicate Distinct(a: object, b: object) {
    a != b
  }

  /** `chosen` are the entries of the next |chosen| scheduling decisions from position `from`. */
  ghost predicate Choices(ring: seq<nat>, run: seq<bool>, from: nat, chosen: seq<nat>)
    requires |run| == |ring| && from < |ring|
  {
    forall k :: 0 <= k < |chosen| ==> chosen[k] == ring[Pick(run, from, k + 1)]
  }

  lemma OneMoreChoice(ring: seq<nat>, run: seq<bool>, from: nat, chosen: seq<nat>, at: nat)
    requires |run| == |ring| && from < |ring| && Choices(ring, run, from, chosen)
    requires at == Pick(run, from, |chosen| + 1)
    ensures Choices(ring, run, from, chosen + [ring[at]])
  {}

  /** One turn with n runnable entries: n choices, each of the n entries once. */
  lemma EachChosenOnce(desc: map<nat, Desc>, ring: seq<nat>, from: nat, chosen: seq<nat>)
    requires IsRing(desc, ring) && from < |ring| && SomeRunnable(RunFlags(desc, ring))
    requires Choices(ring, RunFlags(desc, ring), from, chosen) && |chosen| == Count(RunFlags(desc, ring))
    ensures forall i :: 0 <= i < |ring| && ring[i] in desc && Runnable(desc[ring[i]]) ==> ring[i] in chosen
    ensures forall k, l :: 0 <= k < l < |chosen| ==> chosen[k] != chosen[l]
  {
    var run := RunFlags(desc, ring);
    EachOnce(run, from);
    forall i | 0 <= i < |ring| && ring[i] in desc && Runnable(desc[ring[i]]) ensures ring[i] in chosen {
      assert run[i] && Chosen(run, from, i);
      var k :| 1 <= k <= Count(run) && Pick(run, from, k) == i;
      assert chosen[k - 1] == ring[i];
    }
  }

  class Scheduler {
    const frames: FrameAllocator
    const memory: array<nat>         // all of memory in 64-bit words; stacks live here
    var desc: map<nat, Desc>
    var currentTask: nat
    var taskList: nat
    var nextPid: nat
    ghost var ring: seq<nat>         // the published tasks, from taskList on
    ghost var at: nat                // where currentTask stands in the ring
    ghost var stackFrame: map<nat, nat>
    ghost var creating: bool         // a pid has been taken whose stack frame is still to come
    ghost const budget: nat          // pids used plus frames left

    /** One circle of published tasks, the current one among them, at least one of them runnable. */
    ghost predicate RingOk()
      reads this
    {
      && IsRing(desc, ring) && taskList == ring[0]
      && at < |ring| && currentTask == ring[at]
      && (forall i :: 0 <= i < |ring| ==> ring[i] < Address(nextPid))
      && SomeRunnable(RunFlags(desc, ring))
      && WordAligned(desc, ring, currentTask)
    }

    /** Every pid beyond the first two has used up one frame above 2 MB, no two the same. */
    ghost predicate StacksOk()
      reads this`nextPid, this`stackFrame, this`creating, frames, frames.bitmap
    {
      && frames.Valid() && frames.totalFrames * PAGE_WORDS <= memory.Length && Distinct(memory, frames.bitmap)
      && 2 <= nextPid && nextPid + |frames.Free()| == budget + (if creating then 1 else 0)
      && (forall i :: i in frames.Free() ==> i >= RESERVED)
      && (forall t :: t in stackFrame ==> RESERVED <= stackFrame[t] < frames.totalFrames)
      && (forall t :: t in stackFrame ==> stackFrame[t] !in frames.Free() && t < Address(nextPid))
      && (forall t, u :: t in stackFrame && u in stackFrame && t != u ==> stackFrame[t] != stackFrame[u])
    }

    ghost predicate Valid()
      reads this, frames, frames.bitmap
    {
      RingOk() && StacksOk()
    }

    /** scheduler_init: the running kernel becomes the only task, linked to itself. */
    constructor (f: FrameAllocator, words: array<nat>)
      requires f.Valid() && f.totalFrames * PAGE_WORDS <= words.Length
      requires Distinct(words, f.bitmap) && forall i :: i in f.Free() ==> i >= RESERVED
      ensures Valid() && frames == f && memory == words && ring == [TABLE] && nextPid == 2 && at == 0
      ensures budget == 2 + |f.Free()| && stackFrame == map[] && !creating
      ensures taskList == currentTask == 0x110000 && 0x110000 in desc
      ensures desc[0x110000].pid == 1 && desc[0x110000].state == TaskRunning && desc[0x110000].next == 0x110000
    {
      var garbage: Desc := *;        // stack_ptr is first written when the task is parked
      frames, memory := f, words;
      desc := map[TABLE := garbage.(pid := 1, state := TaskRunning, next := TABLE)];
      taskList, currentTask, nextPid := TABLE, TABLE, 2;
      ring, at, stackFrame, creating := [TABLE], 0, map[], false;
      budget := 2 + |f.Free()|;
      new;
      assert RunFlags(desc, ring)[0];
      forall i: nat ensures Links(desc, ring, i) {}
    }

    /** scheduler_next: stops, and at the first runnable task after the current one. */
    method SchedulerNext() returns (task: nat, ghost j: nat)
      requires IsRing(desc, ring) && at < |ring| && currentTask == ring[at] && SomeRunnable(RunFlags(desc, ring))
      ensures j == Next(RunFlags(desc, ring), at) && task == ring[j]
      ensures IsNext(RunFlags(desc, ring), at, j)
      ensures task in desc && desc[task].state in {TaskReady, TaskRunning}
      ensures forall k :: 0 <= k < |ring| && Gap(at, k, |ring|) < Gap(at, j, |ring|) && ring[k] in desc ==>
                desc[ring[k]].state in {TaskSleeping, TaskExited}
    {
      ghost var run, n := RunFlags(desc, ring), |ring|;
      assert Links(desc, ring, at);
      task := desc[currentTask].next;
      ghost var g := 1;
      assert Links(desc, ring, At(at, 1, n));
      while !Runnable(desc[task])
        invariant 1 <= g <= n && task == ring[At(at, g, n)] && task in desc
        invariant NoneBefore(run, at, g)
        decreases n - g
      {
        ghost var k := At(at, g, n);
        assert Links(desc, ring, k);
        forall p | 0 <= p < n && Gap(at, p, n) == g ensures p == k {}
        ghost var p :| 0 <= p < n && run[p];
        assert g < Gap(at, p, n) <= n;
        task := desc[task].next;
        g := g + 1;
        assert Links(desc, ring, At(at, g, n));
      }
      j := At(at, g, n);
      assert run[j];
      NextIsUnique(run, at, j);
    }

    /** scheduler_schedule: park the current task's stack pointer, move on, return the next one's. */
    method SchedulerSchedule(sp: nat) returns (r: nat)
      requires RingOk() && sp % 8 == 0
      modifies this`desc, this`currentTask, this`at
      ensures RingOk() && Rescheduled(old(desc), desc, ring)
      ensures at == Next(RunFlags(old(desc), ring), old(at))
      ensures old(currentTask) in old(desc)
      ensures desc == old(desc)[old(currentTask) := old(desc)[old(currentTask)].(stackPtr := sp)]
      ensures currentTask in desc && r == desc[currentTask].stackPtr
    {
      SaveKeepsRing(desc, ring, at, sp);
      desc := desc[currentTask := desc[currentTask].(stackPtr := sp)];
      ghost var j;
      currentTask, j := SchedulerNext();
      at := j;
      assert Links(desc, ring, at);
      return desc[currentTask].stackPtr;
    }

    /** One more timer interrupt after those that have chosen `chosen`. */
    method ScheduleOnce(ghost run: seq<bool>, ghost from: nat, ghost chosen: seq<nat>) returns (ghost more: seq<nat>)
      requires RingOk() && run == RunFlags(desc, ring) && from < |ring|
      requires at == Pick(run, from, |chosen|) && Choices(ring, run, from, chosen)
      modifies this`desc, this`currentTask, this`at
      ensures RingOk() && Rescheduled(old(desc), desc, ring) && RunFlags(desc, ring) == run
      ensures |more| == |chosen| + 1 && at == Pick(run, from, |more|) && Choices(ring, run, from, more)
    {
      ghost var before := desc;
      var sp: nat :| sp % 8 == 0;
      var _ := SchedulerSchedule(sp);
      RescheduledKeepsFlags(before, desc, ring);
      OneMoreChoice(ring, run, from, chosen, at);
      more := chosen + [ring[at]];
    }

    /** n timer interrupts: the entries chosen are the next n runnable ones round the ring. */
    method ScheduleTimes(n: nat) returns (ghost chosen: seq<nat>)
      requires RingOk()
      modifies this`desc, this`currentTask, this`at
      ensures RingOk() && Rescheduled(old(desc), desc, ring)
      ensures at == Pick(RunFlags(old(desc), ring), old(at), n)
      ensures Choices(ring, RunFlags(old(desc), ring), old(at), chosen) && |chosen| == n
    {
      ghost var run, from := RunFlags(desc, ring), at;
      chosen := [];
      for i := 0 to n
        invariant RingOk() && Rescheduled(old(desc), desc, ring) && RunFlags(desc, ring) == run
        invariant |chosen| == i && at == Pick(run, from, i) && Choices(ring, run, from, chosen)
      {
        ghost var before := desc;
        chosen := ScheduleOnce(run, from, chosen);
        RescheduledTwice(old(desc), before, desc, ring);
      }
    }

    /**
     What may happen between two statements of a task: any number of timer interrupts, and other
     tasks writing any memory but the words [lo, hi) of the stack under construction.
     */
    method Preempted(lo: nat, hi: nat)
      requires RingOk() && lo <= hi <= memory.Length
      modifies this`desc, this`currentTask, this`at, memory
      ensures RingOk() && Rescheduled(old(desc), desc, ring) && memory[lo..hi] == old(memory[lo..hi])
    {
      var interrupts: nat := *;
      while interrupts > 0
        invariant RingOk() && Rescheduled(old(desc), desc, ring) && memory[lo..hi] == old(memory[lo..hi])
      {
        var sp: nat :| sp % 8 == 0;
        var _ := SchedulerSchedule(sp);
        var word: nat, value: nat := *, *;
        if word < memory.Length && !(lo <= word < hi) {
          memory[word] := value;
        }
        interrupts := interrupts - 1;
      }
    }

    /** task_create has begun to fill in `task`, which no list reaches yet, and has changed no other task. */
    ghost predicate Building(task: nat, start: map<nat, Desc>)
      reads this
    {
      RingOk() && task !in ring && task in desc && SameTasks(start, desc, task)
    }

    /** The time between two statements of task_create. */
    method Pause(task: nat, lo: nat, hi: nat, ghost start: map<nat, Desc>)
      requires Building(task, start) && lo <= hi <= memory.Length
      modifies this`desc, this`currentTask, this`at, memory
      ensures Building(task, start) && desc[task] == old(desc)[task] && memory[lo..hi] == old(memory[lo..hi])
    {
      ghost var before := desc;
      Preempted(lo, hi);
      StillSame(start, before, desc, ring, task);
    }

    /** *--stack = value, on top of the words already there. */
    method Push(task: nat, stack: nat, value: nat, hi: nat, ghost words: seq<nat>, ghost start: map<nat, Desc>)
      returns (below: nat)
      requires Building(task, start) && 1 <= stack <= hi <= memory.Length && memory[stack..hi] == words
      modifies this`desc, this`currentTask, this`at, memory
      ensures Building(task, start) && desc[task] == old(desc)[task]
      ensures below == stack - 1 && memory[below..hi] == [value] + words
    {
      below := stack - 1;
      memory[below] := value;
      assert memory[below..hi] == [value] + words;
      Pause(task, below, hi, start);
    }

    /** SS, RSP and RFLAGS of the new task. */
    method PushStackWords(task: nat, top: nat, ghost start: map<nat, Desc>) returns (stack: nat, ghost rsp: nat)
      requires Building(task, start) && ENTRY_WORDS <= top <= memory.Length
      modifies this`desc, this`currentTask, this`at, memory
      ensures Building(task, start) && desc[task] == old(desc)[task]
      ensures stack == top - 3 && memory[stack..top] == [0x202, rsp, 0x20]
    {
      var unsequenced: nat :| unsequenced >= 0; // the source reads and writes `stack` unsequenced here
      rsp := unsequenced;
      stack := Push(task, top, 0x20, top, [], start);
      stack := Push(task, stack, unsequenced, top, [0x20], start);
      stack := Push(task, stack, 0x202, top, [rsp, 0x20], start);
    }

    /** CS and RIP, which with the three words before them are what an iretq would pop. */
    method PushEntry(task: nat, stack: nat, entry: nat, top: nat, ghost words: seq<nat>, ghost start: map<nat, Desc>)
      returns (below: nat)
      requires Building(task, start) && 2 <= stack <= top <= memory.Length && memory[stack..top] == words
      modifies this`desc, this`currentTask, this`at, memory
      ensures Building(task, start) && desc[task] == old(desc)[task]
      ensures below == stack - 2 && memory[below..top] == [entry, 0x18] + words
    {
      below := Push(task, stack, 0x18, top, words, start);
      below := Push(task, below, entry, top, [0x18] + words, start);
    }

    /** The fifteen general registers. */
    method PushZeros(task: nat, from: nat, top: nat, ghost words: seq<nat>, ghost start: map<nat, Desc>)
      returns (stack: nat)
      requires Building(task, start) && 15 <= from <= top <= memory.Length && memory[from..top] == words
      modifies this`desc, this`currentTask, this`at, memory
      ensures Building(task, start) && desc[task] == old(desc)[task]
      ensures stack == from - 15 && memory[stack..top] == Zeros(15) + words
    {
      stack := from;
      for i := 0 to 15
        invariant Building(task, start) && desc[task] == old(desc)[task]
        invariant stack == from - i && memory[stack..top] == Zeros(i) + words
      {
        stack := Push(task, stack, 0, top, Zeros(i) + words, start);
        MoreZeros(i, words);
      }
    }

    /** The twenty words of the initial stack, pushed downwards from the end of the page. */
    method PushInitialFrame(task: nat, top: nat, entry: nat, ghost start: map<nat, Desc>)
      returns (stack: nat, ghost rsp: nat)
      requires Building(task, start) && ENTRY_WORDS <= top <= memory.Length
      modifies this`desc, this`currentTask, this`at, memory
      ensures Building(task, start) && desc[task] == old(desc)[task]
      ensures stack == top - ENTRY_WORDS && IsInitialFrame(memory[stack..top], entry, rsp)
    {
      stack, rsp := PushStackWords(task, top, start);
      stack := PushEntry(task, stack, entry, top, [0x202, rsp, 0x20], start);
      stack := PushZeros(task, stack, top, [entry, 0x18] + [0x202, rsp, 0x20], start);
    }

    /** A store into a descriptor no list reaches yet, then possibly some interrupts. */
    method SetUnlisted(task: nat, d: Desc, lo: nat, hi: nat, ghost start: map<nat, Desc>)
      requires RingOk() && task !in ring && SameTasks(start, desc, task) && lo <= hi <= memory.Length
      modifies this`desc, this`currentTask, this`at, memory
      ensures Building(task, start) && desc[task] == d && memory[lo..hi] == old(memory[lo..hi])
    {
      UnlistedUpdate(desc, ring, task, d);
      desc := desc[task := d];
      Pause(task, lo, hi, start);
    }

    method TakePid()
      requires Valid() && !creating
      modifies this`nextPid, this`creating
      ensures Valid() && creating && nextPid == old(nextPid) + 1
    {
      nextPid := nextPid + 1;
      creating := true;
    }

    method WritePid(task: nat)
      requires RingOk() && task == Address(nextPid)
      modifies this`desc, this`currentTask, this`at, memory
      ensures Building(task, old(desc)) && desc[task].pid == nextPid
    {
      ghost var start := desc;
      Preempted(0, 0);
      StillSame(start, start, desc, ring, task);
      var garbage: Desc := *;        // whatever the descriptor memory held
      SetUnlisted(task, garbage.(pid := nextPid), 0, 0, start);
    }

    method MarkReady(task: nat, ghost start: map<nat, Desc>)
      requires Building(task, start)
      modifies this`desc, this`currentTask, this`at, memory
      ensures Building(task, start) && desc[task] == old(desc)[task].(state := TaskReady)
    {
      Pause(task, 0, 0, start);
      SetUnlisted(task, desc[task].(state := TaskReady), 0, 0, start);
    }

    /** task->pid = next_pid++ and task->state = TASK_READY, in memory that is not yet published. */
    method StartDescriptor(task: nat)
      requires Valid() && !creating && task == Address(nextPid)
      modifies this`desc, this`currentTask, this`at, this`nextPid, this`creating, memory
      ensures Valid() && creating && nextPid == old(nextPid) + 1
      ensures Building(task, old(desc)) && desc[task].pid == old(nextPid) && desc[task].state == TaskReady
    {
      WritePid(task);
      TakePid();
      MarkReady(task, old(desc));
    }

    /** From pmm_alloc_frame to the store of stack_ptr. */
    method GiveStack(task: nat, entry: nat, ghost start: map<nat, Desc>) returns (ghost rsp: nat)
      requires Valid() && creating && frames.Free() != {} && Building(task, start) && task < Address(nextPid)
      requires task !in stackFrame
      modifies this`desc, this`currentTask, this`at, this`stackFrame, this`creating, frames.bitmap, memory
      ensures Valid() && !creating && Building(task, start)
      ensures task in stackFrame && stackFrame[task] in old(frames.Free())
      ensures stackFrame == old(stackFrame)[task := stackFrame[task]]
      ensures desc[task] == old(desc)[task].(stackPtr := 8 * InitialTop(stackFrame[task]))
      ensures HasInitialFrame(stackFrame[task], entry, rsp)
    {
      var page := TakeFrame(task);
      rsp := FillStack(task, page, entry, stackFrame[task], start);
    }

    /** The frame task_create pushed lies untouched in page f. */
    ghost predicate HasInitialFrame(f: nat, entry: nat, rsp: nat)
      reads memory
    {
      && InitialTop(f) + ENTRY_WORDS <= memory.Length
      && IsInitialFrame(memory[InitialTop(f)..InitialTop(f) + ENTRY_WORDS], entry, rsp)
    }

    method FillStack(task: nat, page: nat, entry: nat, ghost f: nat, ghost start: map<nat, Desc>)
      returns (ghost rsp: nat)
      requires Building(task, start) && page == f * PAGE_SIZE && (f + 1) * PAGE_WORDS <= memory.Length
      modifies this`desc, this`currentTask, this`at, memory
      ensures Building(task, start) && desc[task] == old(desc)[task].(stackPtr := 8 * InitialTop(f))
      ensures HasInitialFrame(f, entry, rsp)
    {
      var top := page / 8 + 511;
      assert top == InitialTop(f) + ENTRY_WORDS;
      Pause(task, 0, 0, start);
      var stack;
      stack, rsp := PushInitialFrame(task, top, entry, start);
      StoreStackPtr(task, stack, f, entry, rsp, start);
    }

    /** task->stack_ptr = stack */
    method StoreStackPtr(task: nat, stack: nat, ghost f: nat, ghost entry: nat, ghost rsp: nat,
                         ghost start: map<nat, Desc>)
      requires Building(task, start) && stack == InitialTop(f) && HasInitialFrame(f, entry, rsp)
      modifies this`desc, this`currentTask, this`at, memory
      ensures Building(task, start) && desc[task] == old(desc)[task].(stackPtr := 8 * InitialTop(f))
      ensures HasInitialFrame(f, entry, rsp)
    {
      SetUnlisted(task, desc[task].(stackPtr := 8 * stack), stack, stack + ENTRY_WORDS, start);
    }

    method TakeFrame(task: nat) returns (page: nat)
      requires StacksOk() && creating && frames.Free() != {} && task < Address(nextPid) && task !in stackFrame
      modifies this`stackFrame, this`creating, frames.bitmap
      ensures StacksOk() && !creating && task in stackFrame && page == stackFrame[task] * PAGE_SIZE
      ensures stackFrame == old(stackFrame)[task := stackFrame[task]] && stackFrame[task] in old(frames.Free())
      ensures (stackFrame[task] + 1) * PAGE_WORDS <= memory.Length
    {
      ghost var free := frames.Free();
      page := frames.PmmAllocFrame();
      ghost var f := page / PAGE_SIZE;
      assert frames.Free() == free - {f} && f in free && page == f * PAGE_SIZE;
      stackFrame := stackFrame[task := f];
      creating := false;
    }

    /** The last two stores of task_create: the new task's own link, then the head's. */
    method Publish(task: nat, lo: nat, hi: nat, ghost start: map<nat, Desc>)
      requires Building(task, start) && Runnable(desc[task]) && task < Address(nextPid)
      requires desc[task].stackPtr % 8 == 0 && lo <= hi <= memory.Length
      modifies this`desc, this`currentTask, this`at, this`ring, memory
      ensures RingOk() && ring == Inserted(old(ring), task) && SameTasks(start, desc, task)
      ensures task in desc && desc[task] == old(desc)[task].(next := desc[task].next)
      ensures memory[lo..hi] == old(memory[lo..hi])
    {
      assert Links(desc, ring, 0);
      var next := desc[taskList].next;
      UnlistedUpdate(desc, ring, task, desc[task].(next := next));
      desc := desc[task := desc[task].(next := next)];
      ghost var before := desc;
      Preempted(lo, hi);
      StillSame(start, before, desc, ring, task);
      assert Links(before, ring, 0);
      LinkHead(task, start);
    }

    /** The same, with the frame in page f as the words not to be lost. */
    method PublishReady(task: nat, ghost f: nat, ghost entry: nat, ghost rsp: nat, ghost start: map<nat, Desc>)
      requires Building(task, start) && Runnable(desc[task]) && task < Address(nextPid)
      requires desc[task].stackPtr == 8 * InitialTop(f) && HasInitialFrame(f, entry, rsp)
      modifies this`desc, this`currentTask, this`at, this`ring, memory
      ensures RingOk() && ring == Inserted(old(ring), task) && SameTasks(start, desc, task)
      ensures task in desc && desc[task] == old(desc)[task].(next := desc[task].next)
      ensures HasInitialFrame(f, entry, rsp)
    {
      var low := desc[task].stackPtr / 8;
      Publish(task, low, low + ENTRY_WORDS, start);
    }

    method LinkHead(task: nat, ghost start: map<nat, Desc>)
      requires Building(task, start) && Runnable(desc[task]) && task < Address(nextPid) && desc[task].stackPtr % 8 == 0
      requires taskList in desc && desc[task].next == desc[taskList].next
      modifies this`desc, this`ring, this`at
      ensures RingOk() && ring == Inserted(old(ring), task) && SameTasks(start, desc, task)
      ensures task in desc && desc[task] == old(desc)[task]
    {
      assert Links(desc, ring, 0);
      InsertKeepsRing(desc, ring, task);
      desc := desc[taskList := desc[taskList].(next := task)];
      ring := Inserted(ring, task);
      if at > 0 { at := at + 1; }
      assert RunFlags(desc, ring)[1];
    }

    /** Everything task_create does to the new task before a list reaches it. */
    method PrepareTask(task: nat, entry: nat) returns (ghost rsp: nat)
      requires Valid() && !creating && task == Address(nextPid) && frames.Free() != {}
      modifies this`desc, this`currentTask, this`at, this`nextPid, this`stackFrame, this`creating, frames.bitmap, memory
      ensures Valid() && !creating && nextPid == old(nextPid) + 1 && Building(task, old(desc))
      ensures task in stackFrame && stackFrame[task] in old(frames.Free())
      ensures stackFrame == old(stackFrame)[task := stackFrame[task]]
      ensures desc[task].pid == old(nextPid) && desc[task].state == TaskReady
      ensures desc[task].stackPtr == 8 * InitialTop(stackFrame[task])
      ensures HasInitialFrame(stackFrame[task], entry, rsp)
    {
      StartDescriptor(task);
      rsp := GiveStack(task, entry, old(desc));
    }

    /**
     task_create, with timer interrupts possible between any two statements. The ring is one
     cycle of published tasks throughout, because the new task's own link is set first; after
     the last store it holds exactly one task more, right behind the head, parked on the twenty
     words of its initial frame. No other task's pid or state changes.
     */
    method TaskCreate(entry: nat) returns (ghost task: nat, ghost rsp: nat)
      requires Valid() && !creating && frames.Free() != {}
      modifies this, frames.bitmap, memory
      ensures Valid() && !creating && nextPid == old(nextPid) + 1
      ensures task == Address(old(nextPid)) && task !in old(ring) && ring == Inserted(old(ring), task)
      ensures task in stackFrame && stackFrame[task] in old(frames.Free())
      ensures stackFrame == old(stackFrame)[task := stackFrame[task]]
      ensures task in desc && SameTasks(old(desc), desc, task)
      ensures desc[task] == Desc(old(nextPid), TaskReady, 8 * InitialTop(stackFrame[task]), desc[task].next)
      ensures HasInitialFrame(stackFrame[task], entry, rsp)
      ensures task == 0x110000 + 24 * old(nextPid) && desc[task].stackPtr == 4096 * stackFrame[task] + 3928
    {
      var t := TABLE + nextPid * DESCRIPTOR_SIZE;
      task := t;
      rsp := PrepareTask(t, entry);
      PublishReady(t, stackFrame[t], entry, rsp, old(desc));
    }
  }

  // ---------------------------------------------------------------- memory layout

  const FRAME_COUNT := 32768     // 128 MB
  const FREE_AT_START := 32256

  lemma {:induction false} RangeSize(s: set<nat>, lo: nat, hi: nat)
    requires lo <= hi && forall i: nat :: i in s <==> lo <= i < hi
    ensures |s| == hi - lo
    decreases hi - lo
  {
    if lo == hi {
      assert s == {};
    } else {
      RangeSize(s - {lo}, lo + 1, hi);
    }
  }

  /** After pmm_init on 128 MB there are 32256 frames to hand out. */
  lemma FramesToHandOut(f: FrameAllocator)
    requires f.Valid() && f.totalFrames == FRAME_COUNT
    requires forall i: nat :: i in f.Free() <==> 512 <= i < f.totalFrames
    ensures |f.Free()| == 32256
  {
    RangeSize(f.Free(), RESERVED, FRAME_COUNT);
  }

  /** The byte ranges [a, a+m) and [b, b+n) share nothing. */
  predicate Apart(a: nat, m: nat, b: nat, n: nat) {
    a + m <= b || b + n <= a
  }

  /**
   With 128 MB the frames run out before the descriptors reach 2 MB: bitmap, descriptors and
   stacks stay clear of one another, and every stack lies in the 64 identity-mapped large pages.
   */
  lemma LayoutHolds(s: Scheduler, t: nat, u: nat)
    requires s.Valid() && s.frames.totalFrames == FRAME_COUNT && s.budget == 2 + FREE_AT_START
    requires t in s.stackFrame && u in s.stackFrame
    ensures Address(s.nextPid) + 24 <= 0x200000
    ensures Apart(0x100000, 32768 / 8, 0x110000, Address(s.nextPid) - 0x110000)
    ensures 0x200000 <= s.stackFrame[t] * 4096 && s.stackFrame[t] * 4096 + 4096 <= 64 * 0x200000
    ensures t != u ==> Apart(s.stackFrame[t] * 4096, 4096, s.stackFrame[u] * 4096, 4096)
  {}
}
