/**
 Preemption is invisible: with tasks confined to their own stacks, a machine that interrupts
 and switches them at arbitrary points computes, for every task, exactly what that task would
 compute running alone. This is claimed of the running task and of those the interrupt stub has
 saved. A task still parked on the frame task_create pushed may be among the others; its frame
 stays as it is until the task is chosen, and what happens then is proved as well.
 */
module Preemption {
  import opened ContextSwitch

  /** The words [lo, hi) of a task's stack. */
  datatype Region = Region(lo: nat, hi: nat)

  /** Memory, the registers of the running task, and where the other tasks' frames lie, fresh ones included. */
  datatype Sys = Sys(mem: seq<Word>, cpu: Cpu, current: nat, parked: map<nat, nat>)

  /** The stacks of the running task and of every task the stub has saved. Tasks without one are fresh. */
  type Regions = map<nat, Region>

  /** All a task can observe: its registers and its stack from the stack pointer up. */
  datatype Local = Local(cpu: Cpu, stack: seq<Word>)

  ghost predicate RegionsOk(regions: Regions, size: nat) {
    && (forall t :: t in regions ==> regions[t].lo + FRAME <= regions[t].hi <= size)
    && (forall t, u :: t in regions && u in regions && t != u ==> ApartRegions(regions[t], regions[u]))
  }

  ghost predicate ApartRegions(a: Region, b: Region) {
    a.hi <= b.lo || b.hi <= a.lo
  }

  /** The stack of these registers lies in the region and leaves room for a frame. */
  ghost predicate Fits(r: Region, c: Cpu) {
    r.lo + FRAME <= StackBase(c.rsp) <= r.hi
  }

  function FrameAt(mem: seq<Word>, at: nat): (f: seq<Word>)
    requires at + FRAME <= |mem|
    ensures |f| == FRAME
  {
    mem[at..at + FRAME]
  }

  /** Task t, not running, has a frame saved by the stub at `parked`. */
  ghost predicate SavedOk(mem: seq<Word>, at: nat, r: Region) {
    && at + FRAME <= |mem|
    && Fits(r, Restore(FrameAt(mem, at)))
    && StackBase(Restore(FrameAt(mem, at)).rsp) == at + FRAME
  }

  ghost predicate WellFormed(s: Sys, regions: Regions) {
    && RegionsOk(regions, |s.mem|)
    && s.current in regions && s.current !in s.parked
    && Fits(regions[s.current], s.cpu)
    && forall t :: t in regions && t != s.current ==> t in s.parked && SavedOk(s.mem, s.parked[t], regions[t])
  }

  /** What a parked task will see when it is resumed. */
  ghost function ParkedLocal(mem: seq<Word>, at: nat, r: Region): Local
    requires SavedOk(mem, at, r) && r.hi <= |mem|
  {
    Local(Restore(FrameAt(mem, at)), mem[at + FRAME..r.hi])
  }

  ghost function LocalOf(s: Sys, regions: Regions, t: nat): Local
    requires WellFormed(s, regions) && t in regions
  {
    if t == s.current then Local(s.cpu, s.mem[StackBase(s.cpu.rsp)..regions[t].hi])
    else ParkedLocal(s.mem, s.parked[t], regions[t])
  }

  // ------------------------------------------------------------------- the two steps

  /** The part of memory below the running task's frame that handlers may scribble on. */
  function ScratchSize(s: Sys, r: Region): int {
    StackBase(s.cpu.rsp) - FRAME - r.lo
  }

  /** Memory after the stub has saved its frame and C handlers have used the stack below it. */
  function Saved(s: Sys, r: Region, vector: Word, scratch: seq<Word>): seq<Word>
    requires r.hi <= |s.mem| && r.lo + FRAME <= StackBase(s.cpu.rsp) <= r.hi && |scratch| == ScratchSize(s, r)
  {
    s.mem[..r.lo] + scratch + FrameOf(s.cpu, vector) + s.mem[StackBase(s.cpu.rsp)..]
  }

  /** With the running task's frame pushed, every task is parked. */
  function ParkAll(s: Sys): map<nat, nat>
    requires StackBase(s.cpu.rsp) >= FRAME
  {
    s.parked[s.current := StackBase(s.cpu.rsp) - FRAME]
  }

  /** Pop the frame of `next` and let it run. */
  function Resume(mem: seq<Word>, all: map<nat, nat>, next: nat): Sys
    requires next in all && all[next] + FRAME <= |mem|
  {
    Sys(mem, Restore(FrameAt(mem, all[next])), next, all - {next})
  }

  /** A whole interrupt. Only the timer's goes through the scheduler; any other resumes the same task. */
  ghost function Interrupt(s: Sys, regions: Regions, vector: Word, scratch: seq<Word>, next: nat): Sys
    requires Interruptible(s, regions, vector, scratch, next)
  {
    SavedFrame(s, regions, vector, scratch);
    Resume(Saved(s, regions[s.current], vector, scratch), ParkAll(s), next)
  }

  /** Any task may be chosen, saved or fresh, provided its 22 words lie in memory. */
  ghost predicate Interruptible(s: Sys, regions: Regions, vector: Word, scratch: seq<Word>, next: nat) {
    && WellFormed(s, regions) && |scratch| == ScratchSize(s, regions[s.current])
    && (next == s.current || (vector == TIMER_VECTOR && next in s.parked && s.parked[next] + FRAME <= |s.mem|))
  }

  /** The running task moves to `local`, writing nothing outside its region. */
  function Work(s: Sys, regions: Regions, local: Local, scratch: seq<Word>): Sys
    requires WellFormed(s, regions)
  {
    var r := regions[s.current];
    s.(mem := s.mem[..r.lo] + scratch + local.stack + s.mem[r.hi..], cpu := local.cpu)
  }

  /** What a task's step may do: stay inside its stack. */
  ghost predicate Confined(r: Region, local: Local) {
    Fits(r, local.cpu) && |local.stack| == r.hi - StackBase(local.cpu.rsp)
  }

  // ------------------------------------------------------- nothing moves but what should

  /** Words outside the interrupted task's region, and its stack from the base up, keep their values. */
  lemma SavedFrame(s: Sys, regions: Regions, vector: Word, scratch: seq<Word>)
    requires WellFormed(s, regions) && |scratch| == ScratchSize(s, regions[s.current])
    ensures var r, base := regions[s.current], StackBase(s.cpu.rsp);
            var mem := Saved(s, r, vector, scratch);
            && |mem| == |s.mem|
            && FrameAt(mem, base - FRAME) == FrameOf(s.cpu, vector)
            && (forall i :: 0 <= i < |mem| && !(r.lo <= i < base) ==> mem[i] == s.mem[i])
  {}

  /** Writes inside one region leave every frame and stack in the others as they are, word for word. */
  lemma OthersKept(mem: seq<Word>, after: seq<Word>, regions: Regions, t: nat, u: nat, at: nat)
    requires RegionsOk(regions, |mem|) && |after| == |mem| && t in regions && u in regions && t != u
    requires forall i :: 0 <= i < |mem| && !(regions[t].lo <= i < regions[t].hi) ==> after[i] == mem[i]
    requires SavedOk(mem, at, regions[u])
    ensures SavedOk(after, at, regions[u]) && ParkedLocal(after, at, regions[u]) == ParkedLocal(mem, at, regions[u])
  {
    assert ApartRegions(regions[t], regions[u]);
    assert FrameAt(after, at) == FrameAt(mem, at);
    assert after[at + FRAME..regions[u].hi] == mem[at + FRAME..regions[u].hi];
  }

  /** The frame just pushed restores the interrupted task. */
  lemma ParkOwn(s: Sys, regions: Regions, vector: Word, scratch: seq<Word>)
    requires WellFormed(s, regions) && |scratch| == ScratchSize(s, regions[s.current])
    ensures var r, at := regions[s.current], StackBase(s.cpu.rsp) - FRAME;
            var mem := Saved(s, r, vector, scratch);
            r.hi <= |mem| && SavedOk(mem, at, r) && ParkedLocal(mem, at, r) == LocalOf(s, regions, s.current)
  {
    SavedFrame(s, regions, vector, scratch);
    RestoreFrame(s.cpu, vector);
    var r, at := regions[s.current], StackBase(s.cpu.rsp) - FRAME;
    var mem := Saved(s, r, vector, scratch);
    assert mem[at + FRAME..r.hi] == s.mem[at + FRAME..r.hi];
  }

  lemma ParkOther(s: Sys, regions: Regions, vector: Word, scratch: seq<Word>, u: nat)
    requires WellFormed(s, regions) && u in regions && u != s.current
    requires |scratch| == ScratchSize(s, regions[s.current])
    ensures var mem := Saved(s, regions[s.current], vector, scratch);
            && |mem| == |s.mem| && SavedOk(mem, s.parked[u], regions[u])
            && ParkedLocal(mem, s.parked[u], regions[u]) == ParkedLocal(s.mem, s.parked[u], regions[u])
  {
    SavedFrame(s, regions, vector, scratch);
    OthersKept(s.mem, Saved(s, regions[s.current], vector, scratch), regions, s.current, u, s.parked[u]);
  }

  /** Saving the running task parks everyone, and changes what no one will see. */
  lemma ParkKeeps(s: Sys, regions: Regions, vector: Word, scratch: seq<Word>, u: nat)
    requires WellFormed(s, regions) && u in regions && |scratch| == ScratchSize(s, regions[s.current])
    ensures var mem, all := Saved(s, regions[s.current], vector, scratch), ParkAll(s);
            && |mem| == |s.mem| && u in all && SavedOk(mem, all[u], regions[u])
            && ParkedLocal(mem, all[u], regions[u]) == LocalOf(s, regions, u)
  {
    if u == s.current { ParkOwn(s, regions, vector, scratch); } else { ParkOther(s, regions, vector, scratch, u); }
  }

  /** Every task with a region is parked on a saved frame. */
  ghost predicate AllSaved(mem: seq<Word>, all: map<nat, nat>, regions: Regions) {
    RegionsOk(regions, |mem|) && forall v :: v in regions ==> v in all && SavedOk(mem, all[v], regions[v])
  }

  lemma ResumeWellFormed(mem: seq<Word>, all: map<nat, nat>, regions: Regions, next: nat)
    requires AllSaved(mem, all, regions) && next in regions
    ensures SavedOk(mem, all[next], regions[next])
    ensures WellFormed(Resume(mem, all, next), regions) && Resume(mem, all, next).current == next
  {}

  lemma ResumeKeeps(mem: seq<Word>, all: map<nat, nat>, regions: Regions, next: nat, u: nat)
    requires AllSaved(mem, all, regions) && next in regions && u in regions
    requires SavedOk(mem, all[next], regions[next]) && WellFormed(Resume(mem, all, next), regions)
    ensures SavedOk(mem, all[u], regions[u])
    ensures LocalOf(Resume(mem, all, next), regions, u) == ParkedLocal(mem, all[u], regions[u])
  {}

  /** An interrupt, with or without a switch, changes no task's registers or stack. */
  lemma InterruptInvisible(s: Sys, regions: Regions, vector: Word, scratch: seq<Word>, next: nat, u: nat)
    requires Interruptible(s, regions, vector, scratch, next) && next in regions && u in regions
    ensures var t := Interrupt(s, regions, vector, scratch, next);
            && WellFormed(t, regions) && t.current == next
            && LocalOf(t, regions, u) == LocalOf(s, regions, u)
  {
    var mem, all := Saved(s, regions[s.current], vector, scratch), ParkAll(s);
    SavedFrame(s, regions, vector, scratch);
    forall v | v in regions ensures v in all && SavedOk(mem, all[v], regions[v]) {
      ParkKeeps(s, regions, vector, scratch, v);
    }
    ParkKeeps(s, regions, vector, scratch, u);
    ResumeWellFormed(mem, all, regions, next);
    ResumeKeeps(mem, all, regions, next, u);
  }

  lemma WorkParked(s: Sys, regions: Regions, local: Local, scratch: seq<Word>, u: nat)
    requires WellFormed(s, regions) && u in regions && u != s.current && Confined(regions[s.current], local)
    requires |scratch| == StackBase(local.cpu.rsp) - regions[s.current].lo
    ensures var mem := Work(s, regions, local, scratch).mem;
            && |mem| == |s.mem| && SavedOk(mem, s.parked[u], regions[u])
            && ParkedLocal(mem, s.parked[u], regions[u]) == ParkedLocal(s.mem, s.parked[u], regions[u])
  {
    WorkStack(s, regions, local, scratch);
    OthersKept(s.mem, Work(s, regions, local, scratch).mem, regions, s.current, u, s.parked[u]);
  }

  /** A step of the running task is seen by that task alone. */
  lemma WorkSeenByOne(s: Sys, regions: Regions, local: Local, scratch: seq<Word>, u: nat)
    requires WellFormed(s, regions) && u in regions && Confined(regions[s.current], local)
    requires |scratch| == StackBase(local.cpu.rsp) - regions[s.current].lo
    ensures var t := Work(s, regions, local, scratch);
            && WellFormed(t, regions)
            && LocalOf(t, regions, u) == if u == s.current then local else LocalOf(s, regions, u)
  {
    var t := Work(s, regions, local, scratch);
    WorkStack(s, regions, local, scratch);
    forall v | v in regions && v != s.current ensures SavedOk(t.mem, s.parked[v], regions[v]) {
      WorkParked(s, regions, local, scratch, v);
    }
    if u != s.current { WorkParked(s, regions, local, scratch, u); }
  }

  lemma WorkStack(s: Sys, regions: Regions, local: Local, scratch: seq<Word>)
    requires WellFormed(s, regions) && Confined(regions[s.current], local)
    requires |scratch| == StackBase(local.cpu.rsp) - regions[s.current].lo
    ensures var r, mem := regions[s.current], Work(s, regions, local, scratch).mem;
            && |mem| == |s.mem| && mem[StackBase(local.cpu.rsp)..r.hi] == local.stack
            && forall i :: 0 <= i < |mem| && !(r.lo <= i < r.hi) ==> mem[i] == s.mem[i]
  {}

  // --------------------------------------------------------------------- whole runs

  datatype Step =
    | Own(scratch: seq<Word>)                              // the running task executes one step
    | Irq(vector: Word, scratch: seq<Word>, next: nat)     // an interrupt arrives

  /** What each task does with its own state, one step at a time. */
  type Program = (nat, Local) -> Local

  ghost predicate Legal(s: Sys, regions: Regions, prog: Program, step: Step) {
    WellFormed(s, regions) &&
    match step
    case Own(scratch) =>
      var local := prog(s.current, LocalOf(s, regions, s.current));
      Confined(regions[s.current], local) && |scratch| == StackBase(local.cpu.rsp) - regions[s.current].lo
    case Irq(vector, scratch, next) =>
      Interruptible(s, regions, vector, scratch, next) && next in regions
  }

  ghost function Do(s: Sys, regions: Regions, prog: Program, step: Step): Sys
    requires Legal(s, regions, prog, step)
  {
    match step
    case Own(scratch) => Work(s, regions, prog(s.current, LocalOf(s, regions, s.current)), scratch)
    case Irq(vector, scratch, next) => Interrupt(s, regions, vector, scratch, next)
  }

  ghost predicate LegalRun(s: Sys, regions: Regions, prog: Program, steps: seq<Step>)
    decreases |steps|
  {
    || steps == []
    || (Legal(s, regions, prog, steps[0]) && LegalRun(Do(s, regions, prog, steps[0]), regions, prog, steps[1..]))
  }

  ghost function Run(s: Sys, regions: Regions, prog: Program, steps: seq<Step>): Sys
    requires LegalRun(s, regions, prog, steps)
    decreases |steps|
  {
    if steps == [] then s else Run(Do(s, regions, prog, steps[0]), regions, prog, steps[1..])
  }

  /** How many steps of the run were task t's own. */
  ghost function OwnSteps(s: Sys, regions: Regions, prog: Program, steps: seq<Step>, t: nat): nat
    requires LegalRun(s, regions, prog, steps)
    decreases |steps|
  {
    if steps == [] then 0
    else (if steps[0].Own? && s.current == t then 1 else 0)
         + OwnSteps(Do(s, regions, prog, steps[0]), regions, prog, steps[1..], t)
  }

  /** Task t running alone, from `local`, for n steps. */
  ghost function Alone(prog: Program, t: nat, n: nat, local: Local): Local {
    if n == 0 then local else Alone(prog, t, n - 1, prog(t, local))
  }

  lemma DoKeeps(s: Sys, regions: Regions, prog: Program, step: Step, t: nat)
    requires Legal(s, regions, prog, step) && t in regions
    ensures var after := Do(s, regions, prog, step);
            && WellFormed(after, regions)
            && LocalOf(after, regions, t) == if step.Own? && t == s.current then prog(t, LocalOf(s, regions, t))
                                             else LocalOf(s, regions, t)
  {
    match step
    case Own(scratch) =>
      WorkSeenByOne(s, regions, prog(s.current, LocalOf(s, regions, s.current)), scratch, t);
    case Irq(vector, scratch, next) =>
      InterruptInvisible(s, regions, vector, scratch, next, t);
  }

  /** The first step of a run, and what it leaves to be run. */
  lemma FirstStep(s: Sys, regions: Regions, prog: Program, steps: seq<Step>, t: nat)
    requires LegalRun(s, regions, prog, steps) && steps != [] && t in regions
    ensures Legal(s, regions, prog, steps[0])
    ensures var next := Do(s, regions, prog, steps[0]);
            && WellFormed(next, regions) && LegalRun(next, regions, prog, steps[1..])
            && LocalOf(next, regions, t) == if steps[0].Own? && t == s.current then prog(t, LocalOf(s, regions, t))
                                            else LocalOf(s, regions, t)
  {
    DoKeeps(s, regions, prog, steps[0], t);
  }

  /** The first step and what is left: the system after it, and whether the step was task t's own. */
  lemma Rest(s: Sys, regions: Regions, prog: Program, steps: seq<Step>, t: nat) returns (next: Sys, own: nat)
    requires LegalRun(s, regions, prog, steps) && steps != [] && t in regions
    ensures WellFormed(s, regions) && WellFormed(next, regions) && LegalRun(next, regions, prog, steps[1..])
    ensures Run(s, regions, prog, steps) == Run(next, regions, prog, steps[1..])
    ensures OwnSteps(s, regions, prog, steps, t) == OwnSteps(next, regions, prog, steps[1..], t) + own && own <= 1
    ensures LocalOf(next, regions, t)
            == if own == 1 then prog(t, LocalOf(s, regions, t)) else LocalOf(s, regions, t)
  {
    FirstStep(s, regions, prog, steps, t);
    next := Do(s, regions, prog, steps[0]);
    own := if steps[0].Own? && s.current == t then 1 else 0;
  }

  lemma {:induction false} RunTo(s: Sys, regions: Regions, prog: Program, steps: seq<Step>, t: nat, end: Sys, n: nat)
    requires WellFormed(s, regions) && LegalRun(s, regions, prog, steps) && t in regions
    requires end == Run(s, regions, prog, steps) && n == OwnSteps(s, regions, prog, steps, t)
    ensures WellFormed(end, regions) && LocalOf(end, regions, t) == Alone(prog, t, n, LocalOf(s, regions, t))
    decreases |steps|
  {
    if steps != [] {
      var next, own := Rest(s, regions, prog, steps, t);
      RunTo(next, regions, prog, steps[1..], t, end, n - own);
    }
  }

  /** Whatever the interleaving, each task ends up where its own steps alone would have taken it. */
  lemma AsIfAlone(s: Sys, regions: Regions, prog: Program, steps: seq<Step>, t: nat)
    requires WellFormed(s, regions) && LegalRun(s, regions, prog, steps) && t in regions
    ensures WellFormed(Run(s, regions, prog, steps), regions)
    ensures LocalOf(Run(s, regions, prog, steps), regions, t)
            == Alone(prog, t, OwnSteps(s, regions, prog, steps, t), LocalOf(s, regions, t))
  {
    RunTo(s, regions, prog, steps, t, Run(s, regions, prog, steps), OwnSteps(s, regions, prog, steps, t));
  }

  /** In particular a frame is restored word for word when its task is next chosen. */
  lemma ResumeRestores(s: Sys, regions: Regions, scratch: seq<Word>, next: nat)
    requires Interruptible(s, regions, TIMER_VECTOR, scratch, next) && next in regions && next != s.current
    ensures var t := Interrupt(s, regions, TIMER_VECTOR, scratch, next);
            t.current == next && t.cpu == Restore(FrameAt(s.mem, s.parked[next]))
  {
    InterruptInvisible(s, regions, TIMER_VECTOR, scratch, next, next);
  }

  // ------------------------------------------------------------------- fresh tasks

  /** Word i belongs to no stack that has a region. */
  ghost predicate Outside(regions: Regions, i: nat) {
    forall t :: t in regions ==> !(regions[t].lo <= i < regions[t].hi)
  }

  /** Fresh tasks stay parked where they are, and no word outside the stacks changes. */
  ghost predicate FreshKept(s: Sys, t: Sys, regions: Regions) {
    && |t.mem| == |s.mem|
    && (forall i: nat {:trigger Outside(regions, i)} :: i < |s.mem| && Outside(regions, i) ==> t.mem[i] == s.mem[i])
    && (forall v :: v in s.parked && v !in regions ==> v in t.parked && t.parked[v] == s.parked[v])
  }

  lemma StepKeepsFresh(s: Sys, regions: Regions, prog: Program, step: Step)
    requires Legal(s, regions, prog, step)
    ensures FreshKept(s, Do(s, regions, prog, step), regions)
  {
    match step
    case Own(scratch) => WorkStack(s, regions, prog(s.current, LocalOf(s, regions, s.current)), scratch);
    case Irq(vector, scratch, next) => SavedFrame(s, regions, vector, scratch);
  }

  /** Over any run that does not choose it, a fresh task stays parked on the words it was created with. */
  lemma {:induction false} RunKeepsFresh(s: Sys, regions: Regions, prog: Program, steps: seq<Step>)
    requires WellFormed(s, regions) && LegalRun(s, regions, prog, steps)
    ensures FreshKept(s, Run(s, regions, prog, steps), regions)
    decreases |steps|
  {
    if steps != [] {
      FirstStep(s, regions, prog, steps, s.current);
      StepKeepsFresh(s, regions, prog, steps[0]);
      RunKeepsFresh(Do(s, regions, prog, steps[0]), regions, prog, steps[1..]);
    }
  }
}
