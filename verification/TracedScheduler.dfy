/**
 The timer interrupt of REPLAY-OS as the code performs it: timer_callback (timer.c) counts and
 records the tick, scheduler_schedule (task.c) picks the next entry and records its pid. Proved to
 be one Timer step of TraceOrder, so what is proved of its runs holds of the recorded trace.
 */
module TracedScheduler {
  import opened TraceRing
  import opened TraceOrder
  import RoundRobin
  import RunRing

  /** The pids round the ring, and who may run. */
  ghost function TasksIn(desc: map<nat, RunRing.Desc>, ring: seq<nat>): (t: Tasks)
    ensures |t.pids| == |t.run| == |ring|
  {
    Tasks(seq(|ring|, i requires 0 <= i < |ring| => if ring[i] in desc then desc[ring[i]].pid else 0),
          RunRing.RunFlags(desc, ring))
  }

  ghost predicate PidsFit(desc: map<nat, RunRing.Desc>) {
    forall a :: a in desc ==> desc[a].pid < Pow256(8)
  }

  lemma SaveKeepsTasks(desc: map<nat, RunRing.Desc>, after: map<nat, RunRing.Desc>, ring: seq<nat>)
    requires RunRing.Rescheduled(desc, after, ring)
    ensures TasksIn(after, ring) == TasksIn(desc, ring) && (PidsFit(desc) ==> PidsFit(after))
  {}

  lemma SmallKinds(kind: nat)
    requires kind <= SCHEDULER
    ensures kind < Pow256(4)
  {
    assert Pow256(4) == 0x1_0000_0000;
  }

  /** scheduler_schedule with its trace_record. */
  method TracedSchedule(tr: Trace, sched: RunRing.Scheduler, ticks: nat, sp: nat) returns (r: nat)
    requires tr.Valid() && sched.RingOk() && sp % 8 == 0 && ticks < Pow256(8) && PidsFit(sched.desc)
    modifies tr`head, tr`count, tr`history, tr.mem, sched`desc, sched`currentTask, sched`at
    ensures tr.Valid() && sched.RingOk() && PidsFit(sched.desc)
    ensures TasksIn(sched.desc, sched.ring) == TasksIn(old(sched.desc), sched.ring)
    ensures var t := TasksIn(old(sched.desc), sched.ring); var next := RoundRobin.Next(t.run, old(sched.at));
            StateOf(tr, ticks, sched.at) == Log(old(StateOf(tr, ticks, sched.at)).(at := next), SCHEDULER, t.pids[next])
  {
    ghost var desc := sched.desc;
    r := sched.SchedulerSchedule(sp);
    SaveKeepsTasks(desc, sched.desc, sched.ring);
    SmallKinds(SCHEDULER);
    tr.TraceRecord(SCHEDULER, ticks, sched.desc[sched.currentTask].pid);
  }

  /** timer_callback, once the tick is counted. */
  method TickRecord(tr: Trace, now: nat)
    requires tr.Valid() && now < Pow256(8)
    modifies tr`head, tr`count, tr`history, tr.mem
    ensures tr.Valid() && forall at :: StateOf(tr, now, at) == Log(old(StateOf(tr, now, at)), TIMER, now)
  {
    SmallKinds(TIMER);
    tr.TraceRecord(TIMER, now, now);
  }

  /** Vector 32: the tick, its record, the switch and its record. */
  method TimerInterrupt(tr: Trace, sched: RunRing.Scheduler, ticks: nat, sp: nat) returns (now: nat, r: nat)
    requires tr.Valid() && sched.RingOk() && sp % 8 == 0 && ticks + 1 < Pow256(8) && PidsFit(sched.desc)
    modifies tr`head, tr`count, tr`history, tr.mem, sched`desc, sched`currentTask, sched`at
    ensures tr.Valid() && sched.RingOk() && PidsFit(sched.desc)
    ensures TasksIn(sched.desc, sched.ring) == TasksIn(old(sched.desc), sched.ring)
    ensures StateOf(tr, now, sched.at)
            == Step(old(StateOf(tr, ticks, sched.at)), TasksIn(old(sched.desc), sched.ring), Timer)
  {
    now := ticks + 1;
    TickRecord(tr, now);
    r := TracedSchedule(tr, sched, now, sp);
  }

  /** Payloads and ticks fit their 64-bit fields. */
  ghost predicate EventsFit(events: seq<TraceOrder.Event>, ticks: nat) {
    && ticks + |events| < Pow256(8)
    && forall i :: 0 <= i < |events| ==>
         && (events[i].Keyboard? ==> events[i].scancode < Pow256(8))
         && (events[i].Syscall? ==> events[i].number < Pow256(8))
  }

  /** One event as the code performs it. */
  method Perform(tr: Trace, sched: RunRing.Scheduler, ticks: nat, e: TraceOrder.Event) returns (now: nat)
    requires tr.Valid() && sched.RingOk() && PidsFit(sched.desc) && EventsFit([e], ticks)
    modifies tr`recording, tr`head, tr`count, tr`history, tr.mem, sched`desc, sched`currentTask, sched`at
    ensures tr.Valid() && sched.RingOk() && PidsFit(sched.desc) && now <= ticks + 1
    ensures TasksIn(sched.desc, sched.ring) == TasksIn(old(sched.desc), sched.ring)
    ensures StateOf(tr, now, sched.at)
            == Step(old(StateOf(tr, ticks, sched.at)), TasksIn(old(sched.desc), sched.ring), e)
  {
    now := ticks;
    assert [e][0] == e;
    SmallKinds(KEYBOARD);
    SmallKinds(SYSCALL);
    match e
    case Timer =>
      var sp: nat :| sp % 8 == 0;
      var r;
      now, r := TimerInterrupt(tr, sched, ticks, sp);
    case Keyboard(scancode) => tr.TraceRecord(KEYBOARD, ticks, scancode);
    case Syscall(number) => tr.TraceRecord(SYSCALL, ticks, number);
    case Start => tr.TraceStart();
    case Stop => tr.TraceStop();
  }

  /** Any sequence of events: the code runs as the trace model does, and the recorded trace stays in order. */
  method Drive(tr: Trace, sched: RunRing.Scheduler, ticks: nat, events: seq<TraceOrder.Event>) returns (now: nat)
    requires tr.Valid() && sched.RingOk() && PidsFit(sched.desc) && EventsFit(events, ticks)
    requires InOrder(StateOf(tr, ticks, sched.at))
    modifies tr`recording, tr`head, tr`count, tr`history, tr.mem, sched`desc, sched`currentTask, sched`at
    ensures tr.Valid() && sched.RingOk() && InOrder(StateOf(tr, now, sched.at))
    ensures StateOf(tr, now, sched.at)
            == Run(old(StateOf(tr, ticks, sched.at)), TasksIn(old(sched.desc), sched.ring), events)
    ensures old(tr.recording) && Uninterrupted(events) ==>
              && Payloads(tr.history, 1) == Payloads(old(tr.history), 1) + Scancodes(events)
              && Payloads(tr.history, 2) == Payloads(old(tr.history), 2) + Calls(events)
  {
    ghost var t, start := TasksIn(sched.desc, sched.ring), StateOf(tr, ticks, sched.at);
    if tr.recording && Uninterrupted(events) { RecordedPayloads(start, t, events); }
    now := ticks;
    for i := 0 to |events|
      invariant tr.Valid() && sched.RingOk() && PidsFit(sched.desc) && now <= ticks + i
      invariant TasksIn(sched.desc, sched.ring) == t && InOrder(StateOf(tr, now, sched.at))
      invariant Run(StateOf(tr, now, sched.at), t, events[i..]) == Run(start, t, events)
    {
      StepKeepsOrder(StateOf(tr, now, sched.at), t, events[i]);
      assert events[i..][1..] == events[i + 1..];
      now := Perform(tr, sched, now, events[i]);
    }
  }
}
