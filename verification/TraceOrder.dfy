/**
 What the trace of REPLAY-OS looks like in order of time. Interrupt handlers run with interrupts
 off, so a timer interrupt is one step: it counts the tick, records it (timer.c), and lets the
 scheduler record whom it chose (task.c). Keyboard and system-call events come in between.
 */
module TraceOrder {
  import opened TraceRing
  import opened RoundRobin

  const TIMER := 0
  const KEYBOARD := 1
  const SYSCALL := 2
  const SCHEDULER := 3

  datatype Event =
    | Timer
    | Keyboard(scancode: nat)
    | Syscall(number: nat)
    | Start
    | Stop

  /** A fixed set of tasks: their pids round the ring and which of them may run. */
  datatype Tasks = Tasks(pids: seq<nat>, run: seq<bool>)

  ghost predicate TasksOk(t: Tasks) {
    |t.pids| == |t.run| && SomeRunnable(t.run)
  }

  datatype State = State(ticks: nat, recording: bool, at: nat, history: seq<Record>)

  /** trace_record */
  function Log(s: State, kind: nat, payload: nat): State {
    if s.recording then s.(history := s.history + [Record(kind, s.ticks, payload)]) else s
  }

  function Step(s: State, t: Tasks, e: Event): State
    requires |t.pids| == |t.run| && s.at < |t.run|
  {
    match e
    case Timer =>
      var s1 := s.(ticks := s.ticks + 1);
      var s2 := Log(s1, TIMER, s1.ticks);
      var next := Next(t.run, s.at);
      Log(s2.(at := next), SCHEDULER, t.pids[next])
    case Keyboard(scancode) => Log(s, KEYBOARD, scancode)
    case Syscall(number) => Log(s, SYSCALL, number)
    case Start => s.(recording := true)
    case Stop => s.(recording := false)
  }

  function Run(s: State, t: Tasks, events: seq<Event>): (r: State)
    requires |t.pids| == |t.run| && s.at < |t.run|
    ensures r.at < |t.run|
    decreases |events|
  {
    if events == [] then s else Run(Step(s, t, events[0]), t, events[1..])
  }

  ghost predicate TicksOrdered(s: State) {
    && (forall i, j :: 0 <= i < j < |s.history| ==> s.history[i].tick <= s.history[j].tick)
    && (forall i :: 0 <= i < |s.history| ==> s.history[i].tick <= s.ticks)
  }

  /** Record i, if it is the scheduler's, comes right after the timer event of the same tick. */
  ghost predicate FollowsTimer(history: seq<Record>, i: nat)
    requires i < |history|
  {
    history[i].kind == 3 ==> i > 0 && history[i - 1] == Record(0, history[i].tick, history[i].tick)
  }

  ghost predicate InOrder(s: State) {
    TicksOrdered(s) && forall i :: 0 <= i < |s.history| ==> FollowsTimer(s.history, i)
  }

  lemma LogKeepsOrder(s: State, kind: nat, payload: nat)
    requires InOrder(s)
    requires kind == SCHEDULER && s.recording ==>
               s.history != [] && s.history[|s.history| - 1] == Record(TIMER, s.ticks, s.ticks)
    ensures InOrder(Log(s, kind, payload))
  {
    var t := Log(s, kind, payload);
    forall i | 0 <= i < |t.history| ensures FollowsTimer(t.history, i) {
      if i < |s.history| { assert FollowsTimer(s.history, i); }
    }
  }

  lemma SameHistory(s: State, t: State)
    requires InOrder(s) && t.history == s.history && t.ticks >= s.ticks
    ensures InOrder(t)
  {
    forall i | 0 <= i < |t.history| ensures FollowsTimer(t.history, i) { assert FollowsTimer(s.history, i); }
  }

  lemma StepKeepsOrder(s: State, t: Tasks, e: Event)
    requires |t.pids| == |t.run| && s.at < |t.run| && InOrder(s)
    ensures InOrder(Step(s, t, e))
  {
    match e
    case Timer =>
      var s1 := s.(ticks := s.ticks + 1);
      SameHistory(s, s1);
      LogKeepsOrder(s1, TIMER, s1.ticks);
      var s2 := Log(s1, TIMER, s1.ticks).(at := Next(t.run, s.at));
      SameHistory(Log(s1, TIMER, s1.ticks), s2);
      LogKeepsOrder(s2, SCHEDULER, t.pids[s2.at]);
    case Keyboard(scancode) => LogKeepsOrder(s, KEYBOARD, scancode);
    case Syscall(number) => LogKeepsOrder(s, SYSCALL, number);
    case Start => SameHistory(s, Step(s, t, e));
    case Stop => SameHistory(s, Step(s, t, e));
  }

  /** Over any run: ticks never decrease, and every scheduler event directly follows its timer event. */
  lemma {:induction false} TraceInOrder(s: State, t: Tasks, events: seq<Event>)
    requires |t.pids| == |t.run| && s.at < |t.run| && InOrder(s)
    ensures InOrder(Run(s, t, events))
    decreases |events|
  {
    if events != [] {
      StepKeepsOrder(s, t, events[0]);
      TraceInOrder(Step(s, t, events[0]), t, events[1..]);
    }
  }

  /** What the tracer and the scheduler hold between two interrupts. */
  ghost function StateOf(tr: Trace, ticks: nat, at: nat): State
    reads tr
  {
    State(ticks, tr.recording, at, tr.history)
  }

  /** The record the ring holds of the j-th event ever recorded. */
  ghost function KeptRecord(tr: Trace, j: nat): Record
    requires tr.Valid()
    reads tr, tr.mem
  {
    RecordAt(tr.mem[..], j % MAX_EVENTS * EVENT_SIZE)
  }

  /**
   The same holds in the ring: among kept events ticks never decrease, and every kept scheduler
   event but the oldest kept event follows its timer event there.
   */
  lemma KeptInOrder(tr: Trace, ticks: nat, at: nat, j: nat, k: nat)
    requires tr.Valid() && InOrder(StateOf(tr, ticks, at)) && |tr.history| - tr.count <= j < k < |tr.history|
    ensures KeptRecord(tr, j).tick <= KeptRecord(tr, k).tick <= ticks
    ensures KeptRecord(tr, k).kind == 3 ==>
              var r := KeptRecord(tr, k); KeptRecord(tr, k - 1) == Record(0, r.tick, r.tick)
  {
    assert Holds(tr.mem[..], tr.history, j) && Holds(tr.mem[..], tr.history, k) && Holds(tr.mem[..], tr.history, k - 1);
    assert FollowsTimer(tr.history, k);
  }

  // ------------------------------------------------------------- who was scheduled

  /** The pids of the scheduler events. */
  function Scheduled(history: seq<Record>): seq<nat> {
    if history == [] then []
    else Scheduled(history[..|history| - 1])
         + (if history[|history| - 1].kind == SCHEDULER then [history[|history| - 1].payload] else [])
  }

  lemma ScheduledAppend(history: seq<Record>, r: Record)
    ensures Scheduled(history + [r]) == Scheduled(history) + (if r.kind == SCHEDULER then [r.payload] else [])
  {
    assert (history + [r])[..|history|] == history;
  }

  function Timers(events: seq<Event>): nat {
    if events == [] then 0 else (if events[0].Timer? then 1 else 0) + Timers(events[1..])
  }

  ghost predicate Uninterrupted(events: seq<Event>) {
    forall i :: 0 <= i < |events| ==> !events[i].Start? && !events[i].Stop?
  }

  lemma StepSchedules(s: State, t: Tasks, e: Event)
    requires |t.pids| == |t.run| && s.at < |t.run| && s.recording && !e.Stop?
    ensures var u := Step(s, t, e);
            && u.recording && u.at == (if e.Timer? then Next(t.run, s.at) else s.at)
            && Scheduled(u.history) == Scheduled(s.history) + (if e.Timer? then [t.pids[u.at]] else [])
  {
    match e
    case Timer =>
      var r := Record(TIMER, s.ticks + 1, s.ticks + 1);
      ScheduledAppend(s.history, r);
      ScheduledAppend(s.history + [r], Record(SCHEDULER, s.ticks + 1, t.pids[Next(t.run, s.at)]));
    case Keyboard(scancode) => ScheduledAppend(s.history, Record(KEYBOARD, s.ticks, scancode));
    case Syscall(number) => ScheduledAppend(s.history, Record(SYSCALL, s.ticks, number));
    case Start =>
  }

  /** The payloads of the records of one type. */
  function Payloads(history: seq<Record>, kind: nat): seq<nat> {
    if history == [] then []
    else Payloads(history[..|history| - 1], kind)
         + (if history[|history| - 1].kind == kind then [history[|history| - 1].payload] else [])
  }

  function Scancodes(events: seq<Event>): seq<nat> {
    if events == [] then []
    else (if events[0].Keyboard? then [events[0].scancode] else []) + Scancodes(events[1..])
  }

  function Calls(events: seq<Event>): seq<nat> {
    if events == [] then []
    else (if events[0].Syscall? then [events[0].number] else []) + Calls(events[1..])
  }

  lemma PayloadsAppend(history: seq<Record>, r: Record, kind: nat)
    ensures Payloads(history + [r], kind) == Payloads(history, kind) + (if r.kind == kind then [r.payload] else [])
  {
    assert (history + [r])[..|history|] == history;
  }

  /** What one event adds, by type: 0 the tick, 1 the scancode, 2 the call number, 3 the pid chosen. */
  function Added(s: State, t: Tasks, e: Event, kind: nat): seq<nat>
    requires |t.pids| == |t.run| && s.at < |t.run|
  {
    match e
    case Timer => if kind == 0 then [s.ticks + 1] else if kind == 3 then [t.pids[Next(t.run, s.at)]] else []
    case Keyboard(scancode) => if kind == 1 then [scancode] else []
    case Syscall(number) => if kind == 2 then [number] else []
    case Start => []
    case Stop => []
  }

  lemma StepPayloads(s: State, t: Tasks, e: Event, kind: nat)
    requires |t.pids| == |t.run| && s.at < |t.run| && s.recording && !e.Stop?
    ensures Payloads(Step(s, t, e).history, kind) == Payloads(s.history, kind) + Added(s, t, e, kind)
    ensures Step(s, t, e).recording && Step(s, t, e).ticks == s.ticks + (if e.Timer? then 1 else 0)
  {
    match e
    case Timer =>
      var r := Record(TIMER, s.ticks + 1, s.ticks + 1);
      PayloadsAppend(s.history, r, kind);
      PayloadsAppend(s.history + [r], Record(SCHEDULER, s.ticks + 1, t.pids[Next(t.run, s.at)]), kind);
    case Keyboard(scancode) => PayloadsAppend(s.history, Record(KEYBOARD, s.ticks, scancode), kind);
    case Syscall(number) => PayloadsAppend(s.history, Record(SYSCALL, s.ticks, number), kind);
    case Start =>
  }

  /** What all the events add. */
  function AllAdded(s: State, t: Tasks, events: seq<Event>, kind: nat): seq<nat>
    requires |t.pids| == |t.run| && s.at < |t.run|
    decreases |events|
  {
    if events == [] then [] else Added(s, t, events[0], kind) + AllAdded(Step(s, t, events[0]), t, events[1..], kind)
  }

  lemma {:induction false} RunPayloads(s: State, t: Tasks, events: seq<Event>, kind: nat)
    requires |t.pids| == |t.run| && s.at < |t.run| && s.recording && Uninterrupted(events)
    ensures Payloads(Run(s, t, events).history, kind) == Payloads(s.history, kind) + AllAdded(s, t, events, kind)
    decreases |events|
  {
    if events != [] {
      assert !events[0].Start? && !events[0].Stop?;
      StepPayloads(s, t, events[0], kind);
      RunPayloads(Step(s, t, events[0]), t, events[1..], kind);
    }
  }

  lemma {:induction false} AddedByType(s: State, t: Tasks, events: seq<Event>)
    requires |t.pids| == |t.run| && s.at < |t.run|
    ensures AllAdded(s, t, events, 1) == Scancodes(events) && AllAdded(s, t, events, 2) == Calls(events)
    decreases |events|
  {
    if events != [] { AddedByType(Step(s, t, events[0]), t, events[1..]); }
  }

  lemma {:induction false} TicksAdded(s: State, t: Tasks, events: seq<Event>)
    requires |t.pids| == |t.run| && s.at < |t.run|
    ensures AllAdded(s, t, events, 0) == seq(Timers(events), i => s.ticks + 1 + i)
    decreases |events|
  {
    if events != [] {
      var u := Step(s, t, events[0]);
      TicksAdded(u, t, events[1..]);
      TicksJoin(s.ticks, Timers(events[1..]));
    }
  }

  /**
   While recording runs on, the trace says exactly what happened: type 1 the scancodes, type 2 the
   system-call numbers, type 0 the ticks counted, each in order and none missing.
   */
  lemma RecordedPayloads(s: State, t: Tasks, events: seq<Event>)
    requires |t.pids| == |t.run| && s.at < |t.run| && s.recording && Uninterrupted(events)
    ensures var h := Run(s, t, events).history;
            && Payloads(h, 1) == Payloads(s.history, 1) + Scancodes(events)
            && Payloads(h, 2) == Payloads(s.history, 2) + Calls(events)
            && Payloads(h, 0) == Payloads(s.history, 0) + seq(Timers(events), i => s.ticks + 1 + i)
  {
    RunPayloads(s, t, events, 0);
    RunPayloads(s, t, events, 1);
    RunPayloads(s, t, events, 2);
    AddedByType(s, t, events);
    TicksAdded(s, t, events);
  }

  /** Whether the trace records after the events: what the last start or stop says. */
  function Switched(recording: bool, events: seq<Event>): bool
    decreases |events|
  {
    if events == [] then recording
    else Switched(if events[0].Start? then true else if events[0].Stop? then false else recording, events[1..])
  }

  ghost predicate NoStart(events: seq<Event>) {
    forall i :: 0 <= i < |events| ==> !events[i].Start?
  }

  /** Recording is on exactly as last started or stopped, and while it is off nothing is recorded. */
  lemma {:induction false} RecordingFollows(s: State, t: Tasks, events: seq<Event>)
    requires |t.pids| == |t.run| && s.at < |t.run|
    ensures Run(s, t, events).recording == Switched(s.recording, events)
    ensures !s.recording && NoStart(events) ==> Run(s, t, events).history == s.history
    decreases |events|
  {
    if events != [] {
      assert NoStart(events) ==> !events[0].Start? && NoStart(events[1..]);
      RecordingFollows(Step(s, t, events[0]), t, events[1..]);
    }
  }

  lemma TicksJoin(ticks: nat, n: nat)
    ensures [ticks + 1] + seq(n, i => ticks + 2 + i) == seq(n + 1, i => ticks + 1 + i)
  {}

  /** The scheduler's records are those of type 3. */
  lemma {:induction false} ScheduledIsThree(history: seq<Record>)
    ensures Scheduled(history) == Payloads(history, 3)
  {
    if history != [] { ScheduledIsThree(history[..|history| - 1]); }
  }

  /** The pids chosen by the next n scheduling decisions. */
  function PickedPids(t: Tasks, i: nat, n: nat): (pids: seq<nat>)
    requires |t.pids| == |t.run| && i < |t.run|
    ensures |pids| == n && forall k :: 0 <= k < n ==> pids[k] == t.pids[Pick(t.run, i, k + 1)]
  {
    if n == 0 then [] else PickedPids(t, i, n - 1) + [t.pids[Pick(t.run, i, n)]]
  }

  lemma ShiftPicks(t: Tasks, i: nat, j: nat, n: nat)
    requires |t.pids| == |t.run| && i < |t.run| && j == Next(t.run, i)
    ensures Pick(t.run, i, n + 1) == Pick(t.run, j, n)
    ensures [t.pids[j]] + PickedPids(t, j, n) == PickedPids(t, i, n + 1)
  {
    assert Pick(t.run, i, 0) == i && Pick(t.run, i, 1) == j;
    forall k: nat | k <= n ensures Pick(t.run, i, k + 1) == Pick(t.run, j, k) {
      PickSplit(t.run, i, 1, k);
      assert 1 + k == k + 1;
    }
  }

  /** While recording runs on, the k-th scheduler event names the k-th task round the ring. */
  lemma {:induction false} ScheduledInRingOrder(s: State, t: Tasks, events: seq<Event>)
    requires |t.pids| == |t.run| && s.at < |t.run| && s.recording && Uninterrupted(events)
    ensures Run(s, t, events).at == Pick(t.run, s.at, Timers(events))
    ensures Scheduled(Run(s, t, events).history) == Scheduled(s.history) + PickedPids(t, s.at, Timers(events))
    decreases |events|, 0
  {
    if events == [] {
      assert Scheduled(s.history) + [] == Scheduled(s.history);
    } else {
      assert !events[0].Start? && !events[0].Stop?;
      StepSchedules(s, t, events[0]);
      RestInRingOrder(Step(s, t, events[0]), t, events[1..], s, events[0]);
    }
  }

  lemma {:induction false} RestInRingOrder(u: State, t: Tasks, rest: seq<Event>, s: State, e: Event)
    requires |t.pids| == |t.run| && s.at < |t.run| && u.at < |t.run| && u.recording && Uninterrupted(rest)
    requires u.at == (if e.Timer? then Next(t.run, s.at) else s.at)
    requires Scheduled(u.history) == Scheduled(s.history) + (if e.Timer? then [t.pids[u.at]] else [])
    ensures var n := Timers(rest) + (if e.Timer? then 1 else 0);
            && Run(u, t, rest).at == Pick(t.run, s.at, n)
            && Scheduled(Run(u, t, rest).history) == Scheduled(s.history) + PickedPids(t, s.at, n)
    decreases |rest|, 1
  {
    ScheduledInRingOrder(u, t, rest);
    if e.Timer? {
      ShiftPicks(t, s.at, u.at, Timers(rest));
      assert Scheduled(s.history) + [t.pids[u.at]] + PickedPids(t, u.at, Timers(rest))
             == Scheduled(s.history) + ([t.pids[u.at]] + PickedPids(t, u.at, Timers(rest)));
    } else {
      assert Scheduled(s.history) + [] == Scheduled(s.history);
    }
  }

  lemma PickedRepeat(t: Tasks, i: nat, n: nat, k: nat)
    requires TasksOk(t) && i < |t.run| && k + Count(t.run) < n
    ensures PickedPids(t, i, n)[k + Count(t.run)] == PickedPids(t, i, n)[k]
  {
    PickPeriod(t.run, i, k + 1);
    assert k + 1 + Count(t.run) == k + Count(t.run) + 1;
  }

  /** So with n runnable tasks the recorded pids repeat with period n. */
  lemma ScheduledPeriodic(s: State, t: Tasks, events: seq<Event>, k: nat)
    requires TasksOk(t) && s.at < |t.run| && s.recording && Uninterrupted(events)
    requires k + Count(t.run) < Timers(events)
    ensures var from, pids := |Scheduled(s.history)|, Scheduled(Run(s, t, events).history);
            from + k + Count(t.run) < |pids| && pids[from + k + Count(t.run)] == pids[from + k]
  {
    var before, picked := Scheduled(s.history), PickedPids(t, s.at, Timers(events));
    ScheduledInRingOrder(s, t, events);
    PickedRepeat(t, s.at, Timers(events), k);
    SameBehind(before, picked, Scheduled(Run(s, t, events).history), k, Count(t.run));
  }

  lemma SameBehind(before: seq<nat>, picked: seq<nat>, all: seq<nat>, k: nat, n: nat)
    requires all == before + picked && k + n < |picked| && picked[k + n] == picked[k]
    ensures |before| + k + n < |all| && all[|before| + k + n] == all[|before| + k]
  {}
}
