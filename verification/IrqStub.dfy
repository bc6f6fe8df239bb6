/**
 The whole interrupt path of REPLAY-OS: irq_common_stub (interrupt.asm) calling the scheduler
 (task.c), over the one array of words in which task_create builds its stacks. Proved to perform
 exactly one `Interrupt` of the Preemption model, with whichever entry the run ring yields next,
 saved or fresh; and what a fresh entry then gets is worked out.
 */
module IrqStub {
  import opened ContextSwitch
  import opened Preemption
  import opened RoundRobin
  import RunRing

  /** Parked stack pointers as the descriptors of the other published tasks hold them, in words. */
  ghost function ParkedIn(desc: map<nat, RunRing.Desc>, ring: seq<nat>, current: nat): map<nat, nat> {
    map a | a in ring && a in desc && a != current :: desc[a].stackPtr / 8
  }

  /** The stub and the scheduler share memory, and the 22 words at every parked stack pointer lie in it. */
  ghost predicate OneMemory(m: Machine, s: RunRing.Scheduler)
    reads m, s
  {
    m.mem == s.memory && FramesIn(ParkedIn(s.desc, s.ring, s.currentTask), m.mem.Length)
  }

  ghost predicate FramesIn(parked: map<nat, nat>, size: nat) {
    forall a :: a in parked ==> parked[a] + FRAME <= size
  }

  ghost function SysOf(m: Machine, s: RunRing.Scheduler): Sys
    reads m, m.mem, s
  {
    Sys(m.mem[..], m.cpu, s.currentTask, ParkedIn(s.desc, s.ring, s.currentTask))
  }

  /** Saving the current stack pointer and moving to `next` re-partitions running and parked. */
  lemma SwitchParked(desc: map<nat, RunRing.Desc>, ring: seq<nat>, current: nat, next: nat, sp: nat)
    requires current in desc && current in ring && next in ring && next in desc
    ensures var all := ParkedIn(desc, ring, current)[current := sp];
            var after := desc[current := desc[current].(stackPtr := 8 * sp)];
            && ParkedIn(after, ring, next) == all - {next}
            && next in all && all[next] == after[next].stackPtr / 8
  {}

  lemma FramesStayIn(parked: map<nat, nat>, size: nat, current: nat, sp: nat, next: nat)
    requires FramesIn(parked, size) && sp + FRAME <= size
    ensures FramesIn(parked[current := sp] - {next}, size)
  {}

  lemma ResumeUnchanged(parked: map<nat, nat>, current: nat, sp: nat)
    requires current !in parked
    ensures parked[current := sp] - {current} == parked
  {}

  /** The frame words after the stub's pushes and the handlers' use of the stack below them. */
  lemma SavedMemory(s: Sys, regions: Regions, vector: Word, after: seq<Word>)
    requires WellFormed(s, regions) && |after| == |s.mem|
    requires var r, sp := regions[s.current], StackBase(s.cpu.rsp) - FRAME;
             && after[..r.lo] == s.mem[..r.lo] && after[sp..sp + FRAME] == FrameOf(s.cpu, vector)
             && after[sp + FRAME..] == s.mem[sp + FRAME..]
    ensures var r, sp := regions[s.current], StackBase(s.cpu.rsp) - FRAME;
            |after[r.lo..sp]| == ScratchSize(s, r) && Saved(s, r, vector, after[r.lo..sp]) == after
  {
    var r, sp := regions[s.current], StackBase(s.cpu.rsp) - FRAME;
    assert after == after[..r.lo] + after[r.lo..sp] + after[sp..sp + FRAME] + after[sp + FRAME..];
  }

  /** The components of an interrupted system determine it. */
  lemma InterruptIs(s: Sys, regions: Regions, vector: Word, scratch: seq<Word>, next: nat, t: Sys)
    requires Interruptible(s, regions, vector, scratch, next)
    requires next in ParkAll(s) && ParkAll(s)[next] + FRAME <= |t.mem|
    requires t.mem == Saved(s, regions[s.current], vector, scratch) && t.current == next
    requires t.cpu == Restore(FrameAt(t.mem, ParkAll(s)[next])) && t.parked == ParkAll(s) - {next}
    ensures t == Interrupt(s, regions, vector, scratch, next)
  {}

  lemma SameTail(before: seq<Word>, after: seq<Word>, sp: nat)
    requires |before| == |after| && sp + FRAME <= |before| && before[sp..] == after[sp..]
    ensures after[sp..sp + FRAME] == before[sp..sp + FRAME] && after[sp + FRAME..] == before[sp + FRAME..]
  {
    assert before[sp..][..FRAME] == before[sp..sp + FRAME] && after[sp..][..FRAME] == after[sp..sp + FRAME];
    assert before[sp..][FRAME..] == before[sp + FRAME..] && after[sp..][FRAME..] == after[sp + FRAME..];
  }

  /** irq_common_stub up to the comparison; the C handlers use the stack below the frame. */
  method SaveAndHandle(m: Machine, vector: Word, floor: nat, ghost s: Sys, ghost regions: Regions)
    returns (ghost scratch: seq<Word>)
    requires WellFormed(s, regions) && m.mem[..] == s.mem && m.cpu == s.cpu && floor == regions[s.current].lo
    modifies m`sp, m.mem
    ensures m.sp == StackBase(s.cpu.rsp) - FRAME && m.sp + FRAME <= m.mem.Length && m.mem[m.sp + 15] == vector
    ensures |scratch| == ScratchSize(s, regions[s.current])
    ensures m.mem[..] == Saved(s, regions[s.current], vector, scratch)
  {
    PushAndCall(m, vector, floor);
    SavedMemory(s, regions, vector, m.mem[..]);
    assert m.mem[m.sp + 15] == m.mem[..][m.sp..m.sp + FRAME][15];
    scratch := m.mem[floor..m.sp];
  }

  /**
   The frame stays on the stack, everything above it and below the stack's floor as it was. What
   the handler and, on the timer, scheduler_schedule leave below the frame is one arbitrary overwrite.
   */
  method PushAndCall(m: Machine, vector: Word, floor: nat)
    requires floor + FRAME <= StackBase(m.cpu.rsp) <= m.mem.Length
    modifies m`sp, m.mem
    ensures m.sp == StackBase(m.cpu.rsp) - FRAME && m.mem[..][m.sp..m.sp + FRAME] == FrameOf(m.cpu, vector)
    ensures m.mem[..][..floor] == old(m.mem[..])[..floor] && m.mem[..][m.sp + FRAME..] == old(m.mem[..])[m.sp + FRAME..]
  {
    m.SaveFrame(vector);
    ghost var before := m.mem[..];
    m.CallC(floor);
    SameTail(before, m.mem[..], m.sp);
  }

  /** The call of scheduler_schedule and the stack switch. */
  method SwitchStack(m: Machine, sched: RunRing.Scheduler)
    requires sched.RingOk() && OneMemory(m, sched) && m.sp + FRAME <= m.mem.Length
    modifies m`sp, sched`desc, sched`currentTask, sched`at
    ensures sched.RingOk() && OneMemory(m, sched) && m.sp + FRAME <= m.mem.Length
    ensures sched.at == Next(RunRing.RunFlags(old(sched.desc), sched.ring), old(sched.at))
    ensures var current := old(sched.currentTask);
            var all := ParkedIn(old(sched.desc), sched.ring, current)[current := old(m.sp)];
            && ParkedIn(sched.desc, sched.ring, sched.currentTask) == all - {sched.currentTask}
            && sched.currentTask in all && m.sp == all[sched.currentTask]
  {
    ghost var desc, current := sched.desc, sched.currentTask;
    ghost var parked := ParkedIn(desc, sched.ring, current);
    var rax := sched.SchedulerSchedule(8 * m.sp);
    SwitchParked(desc, sched.ring, current, sched.currentTask, m.sp);
    FramesStayIn(parked, m.mem.Length, current, m.sp, sched.currentTask);
    m.sp := rax / 8;
  }

  /** The comparison with 32: only the timer goes through the scheduler. */
  method ChooseStack(m: Machine, sched: RunRing.Scheduler, ghost vector: Word)
    requires sched.RingOk() && OneMemory(m, sched)
    requires m.sp + FRAME <= m.mem.Length && m.mem[m.sp + 15] == vector
    modifies m`sp, sched`desc, sched`currentTask, sched`at
    ensures sched.RingOk() && OneMemory(m, sched) && m.sp + FRAME <= m.mem.Length
    ensures sched.at == if vector != TIMER_VECTOR then old(sched.at)
                        else Next(RunRing.RunFlags(old(sched.desc), sched.ring), old(sched.at))
    ensures vector != TIMER_VECTOR ==> sched.currentTask == old(sched.currentTask)
    ensures var current := old(sched.currentTask);
            var all := ParkedIn(old(sched.desc), sched.ring, current)[current := old(m.sp)];
            && ParkedIn(sched.desc, sched.ring, sched.currentTask) == all - {sched.currentTask}
            && sched.currentTask in all && m.sp == all[sched.currentTask]
  {
    if m.mem[m.sp + 15] == TIMER_VECTOR {
      SwitchStack(m, sched);
    } else {
      ResumeUnchanged(ParkedIn(sched.desc, sched.ring, sched.currentTask), sched.currentTask, m.sp);
    }
  }

  /** Everything up to the pops: the frame of the chosen task lies at sp. */
  method SaveAndChoose(m: Machine, sched: RunRing.Scheduler, vector: Word, floor: nat,
                       ghost s: Sys, ghost regions: Regions)
    returns (ghost scratch: seq<Word>)
    requires sched.RingOk() && OneMemory(m, sched)
    requires s == SysOf(m, sched) && WellFormed(s, regions) && floor == regions[s.current].lo
    modifies m`sp, m.mem, sched`desc, sched`currentTask, sched`at
    ensures sched.RingOk() && OneMemory(m, sched) && m.sp + FRAME <= m.mem.Length
    ensures sched.at == if vector != TIMER_VECTOR then old(sched.at)
                        else Next(RunRing.RunFlags(old(sched.desc), sched.ring), old(sched.at))
    ensures Interruptible(s, regions, vector, scratch, sched.currentTask)
    ensures m.mem[..] == Saved(s, regions[s.current], vector, scratch)
    ensures sched.currentTask in ParkAll(s) && m.sp == ParkAll(s)[sched.currentTask]
    ensures ParkedIn(sched.desc, sched.ring, sched.currentTask) == ParkAll(s) - {sched.currentTask}
  {
    scratch := SaveAndHandle(m, vector, floor, s, regions);
    assert sched.RingOk() && OneMemory(m, sched);
    assert ParkedIn(sched.desc, sched.ring, sched.currentTask)[sched.currentTask := m.sp] == ParkAll(s);
    ChooseStack(m, sched, vector);
  }

  /**
   One interrupt. For vector 32 the stack pointer is handed to scheduler_schedule and the one it
   returns is used instead; for any other the same task continues.
   */
  method IrqCommonStub(m: Machine, sched: RunRing.Scheduler, vector: Word, floor: nat, ghost regions: Regions)
    returns (ghost scratch: seq<Word>)
    requires sched.RingOk() && OneMemory(m, sched)
    requires WellFormed(SysOf(m, sched), regions) && floor == regions[sched.currentTask].lo
    modifies m, m.mem, sched`desc, sched`currentTask, sched`at
    ensures sched.RingOk() && OneMemory(m, sched)
    ensures sched.at == if vector != 32 then old(sched.at)
                        else Next(RunRing.RunFlags(old(sched.desc), sched.ring), old(sched.at))
    ensures vector != 32 ==> sched.currentTask == old(sched.currentTask)
    ensures Interruptible(old(SysOf(m, sched)), regions, vector, scratch, sched.currentTask)
    ensures SysOf(m, sched) == Interrupt(old(SysOf(m, sched)), regions, vector, scratch, sched.currentTask)
  {
    ghost var s := SysOf(m, sched);
    scratch := SaveAndChoose(m, sched, vector, floor, s, regions);
    ghost var next := sched.currentTask;
    ghost var memory := m.mem[..];
    ghost var frame := FrameAt(memory, m.sp);
    m.RestoreRegisters();
    ghost var t := Sys(memory, Restore(frame), next, ParkAll(s) - {next});
    assert SysOf(m, sched) == t;
    InterruptIs(s, regions, vector, scratch, next, t);
  }

  // ------------------------------------------------------------ what a fresh entry gets

  /** The twenty words task_create pushed lie at `at`. */
  ghost predicate FreshAt(mem: seq<Word>, at: nat, entry: Word, rsp: Word) {
    at + RunRing.ENTRY_WORDS <= |mem| && RunRing.IsInitialFrame(mem[at..at + RunRing.ENTRY_WORDS], entry, rsp)
  }

  /** The words of the frame at `at` belong to no stack that has a region. */
  ghost predicate Clear(regions: Regions, at: nat) {
    forall i: nat :: at <= i < at + RunRing.ENTRY_WORDS ==> Outside(regions, i)
  }

  /** task_create leaves its entry parked on such words. */
  lemma CreatedIsFresh(m: Machine, sched: RunRing.Scheduler, task: nat, f: nat, entry: Word, rsp: Word)
    requires OneMemory(m, sched) && task in sched.ring && task in sched.desc && task != sched.currentTask
    requires sched.desc[task].stackPtr == 8 * RunRing.InitialTop(f) && sched.HasInitialFrame(f, entry, rsp)
    ensures var s := SysOf(m, sched);
            && task in s.parked && s.parked[task] == RunRing.InitialTop(f)
            && FreshAt(s.mem, s.parked[task], entry, rsp)
  {
    var at := RunRing.InitialTop(f);
    assert m.mem[..][at..at + RunRing.ENTRY_WORDS] == m.mem[at..at + RunRing.ENTRY_WORDS];
  }

  /**
   The stub pops 22 words where task_create pushed 20: RIP and CS fall on the two skipped words,
   and RFLAGS, RSP and SS are popped as RIP, CS and RFLAGS.
   */
  lemma FreshRestores(mem: seq<Word>, at: nat, entry: Word, rsp: Word)
    requires at + FRAME <= |mem| && FreshAt(mem, at, entry, rsp)
    ensures var c := Restore(FrameAt(mem, at));
            && c.rip == 0x202 && c.cs == rsp && c.rflags == 0x20 && c.rsp == mem[at + 20] && c.ss == mem[at + 21]
            && (c.rip == entry <==> entry == 0x202)
  {
    var words := mem[at..at + RunRing.ENTRY_WORDS];
    assert words[17] == mem[at + 17] && words[18] == mem[at + 18] && words[19] == mem[at + 19];
  }

  /** So within its page no fresh frame is one the stub could have saved. */
  lemma FreshNotSaved(mem: seq<Word>, f: nat, r: Region)
    requires r.hi <= (f + 1) * RunRing.PAGE_WORDS
    ensures !SavedOk(mem, RunRing.InitialTop(f), r)
  {}

  /** An interrupt that chooses a fresh entry starts it at its entry address only if that address is 0x202. */
  lemma FreshChosen(s: Sys, regions: Regions, scratch: seq<Word>, next: nat, entry: Word, rsp: Word)
    requires Interruptible(s, regions, TIMER_VECTOR, scratch, next) && next != s.current
    requires FreshAt(s.mem, s.parked[next], entry, rsp)
    requires Clear(regions, s.parked[next])
    ensures var t := Interrupt(s, regions, TIMER_VECTOR, scratch, next);
            && t.current == next && t.cpu.rip == 0x202 && t.cpu.cs == rsp && t.cpu.rflags == 0x20
            && (t.cpu.rip == entry <==> entry == 0x202)
  {
    var at := s.parked[next];
    ChosenWords(s, regions, scratch, at, entry, rsp);
    FreshRestores(Saved(s, regions[s.current], TIMER_VECTOR, scratch), at, entry, rsp);
  }

  /** Saving the running task leaves the words of a fresh frame alone. */
  lemma ChosenWords(s: Sys, regions: Regions, scratch: seq<Word>, at: nat, entry: Word, rsp: Word)
    requires WellFormed(s, regions) && |scratch| == ScratchSize(s, regions[s.current])
    requires FreshAt(s.mem, at, entry, rsp) && Clear(regions, at)
    ensures var after := Saved(s, regions[s.current], TIMER_VECTOR, scratch);
            |after| == |s.mem| && FreshAt(after, at, entry, rsp)
  {
    SavedFrame(s, regions, TIMER_VECTOR, scratch);
    SameWords(s.mem, Saved(s, regions[s.current], TIMER_VECTOR, scratch), regions, at);
  }

  lemma SameWords(mem: seq<Word>, after: seq<Word>, regions: Regions, at: nat)
    requires |after| == |mem| && at + RunRing.ENTRY_WORDS <= |mem| && Clear(regions, at)
    requires forall i: nat {:trigger Outside(regions, i)} :: i < |mem| && Outside(regions, i) ==> after[i] == mem[i]
    ensures after[at..at + RunRing.ENTRY_WORDS] == mem[at..at + RunRing.ENTRY_WORDS]
  {
    forall i: nat | at <= i < at + RunRing.ENTRY_WORDS ensures after[i] == mem[i] {
      assert Outside(regions, i);
    }
  }

  /** However long the saved tasks run before that, the outcome is the same. */
  lemma FreshNeverStarts(s: Sys, regions: Regions, prog: Program, steps: seq<Step>, scratch: seq<Word>,
                         next: nat, entry: Word, rsp: Word)
    requires WellFormed(s, regions) && LegalRun(s, regions, prog, steps)
    requires next in s.parked && next !in regions && FreshAt(s.mem, s.parked[next], entry, rsp)
    requires Clear(regions, s.parked[next])
    requires Interruptible(Run(s, regions, prog, steps), regions, TIMER_VECTOR, scratch, next)
    ensures var t := Interrupt(Run(s, regions, prog, steps), regions, TIMER_VECTOR, scratch, next);
            && t.current == next && t.cpu.rip == 0x202 && t.cpu.cs == rsp && t.cpu.rflags == 0x20
            && (t.cpu.rip == entry <==> entry == 0x202)
  {
    RunKeepsFresh(s, regions, prog, steps);
    FreshWords(s, Run(s, regions, prog, steps), regions, s.parked[next], entry, rsp);
    FreshChosen(Run(s, regions, prog, steps), regions, scratch, next, entry, rsp);
  }

  lemma FreshWords(s: Sys, t: Sys, regions: Regions, at: nat, entry: Word, rsp: Word)
    requires FreshKept(s, t, regions) && FreshAt(s.mem, at, entry, rsp)
    requires Clear(regions, at)
    ensures FreshAt(t.mem, at, entry, rsp)
  {
    SameWords(s.mem, t.mem, regions, at);
  }
}
