/**
 The numbers of power.c, RESEARCH-OS: when a tick flushes, how writes are batched, and what every
 metric counts, all in closed form and apart from the functions of PowerSpec.
 */
module PowerCounts {
  import opened PowerSpec
  import opened PowerRuns

  /** Ticks between flushes, and writes in a batch (power.c, lines 6-12). */
  function Limit(mode: Mode): nat {
    match mode case Performance => 1 case Balanced => 10 case EnergySaver => 50
  }

  function Batch(mode: Mode): nat {
    match mode case Performance => 1 case Balanced => 16 case EnergySaver => 64
  }

  // -------------------------------------------------------------------------- writes

  /** One write: the batch-filling one flushes everything for one wakeup, any other is only kept. */
  lemma WriteByNumber(s: State, data: char)
    requires |s.io| < 64
    ensures var t := IoWrite(s, data);
            && t.total == s.total + 1 && t.writes == s.writes + 1 && t.delayed == s.delayed + 1
            && (if |s.io| + 1 >= Batch(s.mode)
                then t.io == [] && t.flushed == s.flushed + |s.io| + 1 && t.wakeups == s.wakeups + 1
                else t.io == s.io + [data] && t.flushed == s.flushed && t.wakeups == s.wakeups)
  {}

  /** One more write moves the fill level round the batch. */
  lemma NextFill(k: nat, b: nat)
    requires b > 0
    ensures (k + 1) % b == (if k % b + 1 == b then 0 else k % b + 1)
    ensures (k + 1) / b == k / b + (if k % b + 1 == b then 1 else 0)
  {
    var q, r := k / b, k % b;
    assert k == q * b + r;
    if r + 1 == b {
      assert k + 1 == (q + 1) * b;
      DivMod(k + 1, b, q + 1, 0);
    } else {
      DivMod(k + 1, b, q, r + 1);
    }
  }

  lemma DivMod(n: nat, b: nat, q: nat, r: nat)
    requires r < b && n == q * b + r
    ensures n / b == q && n % b == r
  {
    var q', r' := n / b, n % b;
    assert n == q' * b + r';
    assert q' > q ==> q' * b >= (q + 1) * b == q * b + b;
    assert q' < q ==> q * b >= (q' + 1) * b == q' * b + b;
  }

  /** n writes in a row, from a fill level below the batch: full batches go out, one wakeup each. */
  lemma {:induction false} WritesByNumber(s: State, data: char, n: nat)
    requires |s.io| < Batch(s.mode)
    ensures var t, b, k := IoWrites(s, data, n), Batch(s.mode), |s.io| + n;
            && t.total == s.total + n && t.writes == s.writes + n && t.delayed == s.delayed + n
            && t.mode == s.mode && |t.io| == k % b && t.wakeups == s.wakeups + k / b
            && t.flushed + |t.io| == s.flushed + k
  {
    if n == 0 {
      DivMod(|s.io|, Batch(s.mode), 0, |s.io|);
    } else {
      WritesByNumber(s, data, n - 1);
      NextFill(|s.io| + n - 1, Batch(s.mode));
      WriteByNumber(IoWrites(s, data, n - 1), data);
    }
  }

  /** `sim` is one hundred writes and one block of statistics. */
  lemma SimByNumber(s: State)
    requires |s.io| < Batch(s.mode)
    ensures var t, b, k := Command(s, "sim"), Batch(s.mode), |s.io| + 100;
            && t.total == s.total + 100 && t.writes == s.writes + 100 && t.delayed == s.delayed + 100
            && |t.io| == k % b && t.wakeups == s.wakeups + k / b && t.flushed + |t.io| == s.flushed + k
  {
    WritesByNumber(Say(s, "Simulating 100 small I/O writes...\n"), 'X', 100);
  }

  /** `stats` shows the metrics as they stand and changes none; saved is the quotient rounded down. */
  lemma StatsByNumber(s: State)
    requires s.wakeups <= s.total
    ensures var t := Command(s, "stats");
            && t.(screen := s.screen) == s && |t.screen| == |s.screen| + 1 && t.screen[..|s.screen|] == s.screen
            && var o := t.screen[|s.screen|];
               && o.Stats? && o.mode == s.mode && o.wakeups == s.wakeups && o.coalesced == s.coalesced
               && o.delayed == s.delayed && o.flushed == s.flushed && o.total == s.total
               && (s.total == 0 ==> o.saved == 0)
               && (s.total > 0 ==> o.saved * s.total <= (s.total - s.wakeups) * 100 < (o.saved + 1) * s.total)
  {
    if s.total > 0 {
      var x, q := (s.total - s.wakeups) * 100, SavedPercent(s.total, s.wakeups);
      assert x == s.total * q + x % s.total;
    }
  }

  // ---------------------------------------------------------------------------- keys

  /** An ordinary key is echoed and edits the line: backspace takes one off, others go on up to 255. */
  lemma TextKey(s: State, key: char)
    requires key != '\n' && key != '\r'
    ensures Deliver(s, key)
            == s.(screen := s.screen + [Echo(key)], delivered := s.delivered + [key],
                  line := if key as int == 8 then (if s.line == [] then [] else s.line[..|s.line| - 1])
                          else if |s.line| < 255 then s.line + [key] else s.line)
  {}

  /** Enter is echoed, starts a new line, runs what was typed, empties the line and prompts. */
  lemma EnterKey(s: State, key: char)
    requires key == '\n' || key == '\r'
    ensures var t := Deliver(s, key);
            && t.line == [] && s.screen + [Echo(key), Text("\n")] <= t.screen
            && t.screen[|t.screen| - 1] == Text("YieldOS> ")
            && (s.line == [] ==> t.screen == s.screen + [Echo(key), Text("\n"), Text("YieldOS> ")])
  {
    var u := Say(s.(screen := s.screen + [Echo(key)], delivered := s.delivered + [key]), "\n");
    assert u.screen == s.screen + [Echo(key), Text("\n")];
    if s.line != [] { CommandShows(u, CString(u.line)); }
  }

  /** `clear` clears the screen and an unknown command is named. */
  lemma CommandScreen(s: State, cmd: string)
    ensures cmd == "clear" ==> Command(s, cmd) == s.(screen := s.screen + [Cleared])
    ensures cmd !in {"help", "perf", "bal", "power", "stats", "sim", "clear"} ==>
              Command(s, cmd)
              == s.(screen := s.screen + [Text("Unknown command: "), Text(cmd), Text("\n")])
  {}

  /** The three mode commands name the mode they set, and change nothing else. */
  lemma ModeShows(s: State, mode: Mode)
    ensures var name := match mode
                        case Performance => "Performance"
                        case Balanced => "Balanced"
                        case EnergySaver => "Energy Saver";
            SetMode(s, mode)
            == s.(mode := mode, screen := s.screen + [Text("Power Mode Switched to: "), Text(name), Text("\n")])
  {}

  /** Commands only add to the screen. */
  lemma CommandShows(s: State, cmd: string)
    ensures s.screen <= Command(s, cmd).screen
  {
    if cmd == "sim" { IoWritesFrame(Say(s, "Simulating 100 small I/O writes...\n"), 'X', SIM_WRITES); }
  }

  // --------------------------------------------------------------------------- ticks

  /** In Performance mode nothing is ever left in the write buffer. */
  ghost predicate Clean(s: State) {
    s.mode == Performance ==> s.io == []
  }

  lemma {:induction false} PerformanceWrites(s: State, data: char, n: nat)
    requires s.mode == Performance && s.io == []
    ensures IoWrites(s, data, n).io == [] && IoWrites(s, data, n).mode == Performance
  {
    if n > 0 { PerformanceWrites(s, data, n - 1); }
  }

  lemma DeliverClean(s: State, key: char)
    requires s.mode == Performance && s.io == []
    ensures Deliver(s, key).io == []
  {
    var u := Say(s.(screen := s.screen + [Echo(key)], delivered := s.delivered + [key]), "\n");
    PerformanceWrites(Say(u, "Simulating 100 small I/O writes...\n"), 'X', SIM_WRITES);
  }

  /** Below the limit a tick only counts; at the limit both queues are emptied and the clock restarts. */
  lemma TickByNumber(s: State)
    requires Inv(s)
    ensures var t := TickHook(s);
            if s.ticks + 1 < Limit(s.mode) then t == s.(ticks := s.ticks + 1)
            else && t.ticks == 0 && t.queue == [] && t.delivered == s.delivered + s.queue
                 && t.io == [] && t.flushed == t.delayed && t.delayed >= s.delayed
  {
    if s.ticks + 1 >= Limit(s.mode) {
      FlushingTick(s);
      var u := s.(ticks := s.ticks + 1);
      if u.queue != [] { DrainGrows(u.(wakeups := u.wakeups + 1)); }
    }
  }

  lemma {:induction false} DrainGrows(s: State)
    ensures Drain(s).flushed >= s.flushed && Drain(s).delayed >= s.delayed
    decreases |s.queue|
  {
    if s.queue != [] {
      var u := s.(queue := s.queue[1..]);
      DeliverFrame(u, s.queue[0]);
      DrainGrows(Deliver(u, s.queue[0]));
    }
  }

  /** s has become t without losing a flushed or delayed byte, and is still clean. */
  ghost predicate StillClean(s: State, t: State) {
    Clean(t) && t.flushed >= s.flushed && t.delayed >= s.delayed
  }

  lemma KeyClean(s: State, key: char)
    requires Clean(s)
    ensures StillClean(s, KeyHook(s, key))
  {
    if s.mode == Performance {
      DeliverClean(s.(total := s.total + 1), key);
      DeliverFrame(s.(total := s.total + 1), key);
    }
  }

  lemma TickClean(s: State)
    requires Inv(s) && Clean(s)
    ensures StillClean(s, TickHook(s))
  {
    TickByNumber(s);
    StepKeepsInv(s, Tick);
  }

  lemma StepClean(s: State, e: Event)
    requires Inv(s) && Clean(s)
    ensures StillClean(s, Step(s, e))
  {
    match e
    case Tick => TickClean(s);
    case Key(key) => KeyClean(s, key);
    case Write(data) => WriteByNumber(s, data);
  }

  lemma {:induction false} RunClean(s: State, events: seq<Event>)
    requires Inv(s) && Clean(s)
    ensures Clean(Run(s, events)) && Run(s, events).flushed >= s.flushed
    decreases |events|
  {
    if events != [] {
      StepClean(s, events[0]);
      StepKeepsInv(s, events[0]);
      RunClean(Step(s, events[0]), events[1..]);
    }
  }

  /** Every byte buffered now is flushed once the mode's ticks have passed, whatever else happens. */
  lemma {:induction false} BufferedInTime(s: State, events: seq<Event>)
    requires Inv(s) && Clean(s) && s.ticks + TickCount(events) >= Limit(s.mode)
    ensures Run(s, events).flushed >= s.delayed
    decreases |events|
  {
    var t := Step(s, events[0]);
    StepKeepsInv(s, events[0]);
    StepClean(s, events[0]);
    if s.mode == Performance {
      RunClean(s, events);
    } else if events[0].Tick? && s.ticks + 1 >= Limit(s.mode) {
      TickByNumber(s);
      RunClean(t, events[1..]);
    } else {
      BufferedInTime(t, events[1..]);
    }
  }

  /** From power-up: the write buffer is empty in Performance, and no byte waits longer than 50 ticks. */
  lemma NothingWaitsLong(before: seq<Event>, events: seq<Event>)
    requires TickCount(events) >= 50
    ensures Run(Run(Initial(), before), events).flushed >= Run(Initial(), before).delayed
  {
    Reachable(before);
    RunClean(Initial(), before);
    BufferedInTime(Run(Initial(), before), events);
  }

  // ------------------------------------------------------------------------- counters

  /** How many keys of the run went into the ring. */
  function Queued(s: State, events: seq<Event>): nat
    decreases |events|
  {
    if events == [] then 0
    else (if events[0].Key? && s.mode != Performance && |s.queue| < 255 then 1 else 0)
         + Queued(Step(s, events[0]), events[1..])
  }

  lemma {:induction false} DrainCoalesced(s: State)
    ensures Drain(s).coalesced == s.coalesced
    decreases |s.queue|
  {
    if s.queue != [] {
      var u := s.(queue := s.queue[1..]);
      DeliverFrame(u, s.queue[0]);
      DrainCoalesced(Deliver(u, s.queue[0]));
    }
  }

  lemma StepCoalesced(s: State, e: Event)
    ensures Step(s, e).coalesced
            == s.coalesced + (if e.Key? && s.mode != Performance && |s.queue| < 255 then 1 else 0)
  {
    match e
    case Tick =>
      var u := s.(ticks := s.ticks + 1);
      if u.queue != [] { DrainCoalesced(u.(wakeups := u.wakeups + 1)); }
    case Key(key) =>
      if s.mode == Performance { DeliverFrame(s.(total := s.total + 1), key); }
    case Write(data) =>
  }

  /** "Interrupts coalesced" is the number of keys that were queued. */
  lemma {:induction false} CoalescedCounts(s: State, events: seq<Event>)
    ensures Run(s, events).coalesced == s.coalesced + Queued(s, events)
    decreases |events|
  {
    if events != [] {
      StepCoalesced(s, events[0]);
      CoalescedCounts(Step(s, events[0]), events[1..]);
    }
  }

  /** No command line is ended: what arrives and what is pending is ordinary text. */
  ghost predicate PlainText(keys: seq<char>) {
    forall i :: 0 <= i < |keys| ==> keys[i] != '\n' && keys[i] != '\r'
  }

  ghost predicate TextEvents(events: seq<Event>) {
    forall i :: 0 <= i < |events| && events[i].Key? ==> events[i].key != '\n' && events[i].key != '\r'
  }

  /** The wakeups one event causes while no command runs. */
  function Wakes(s: State, e: Event): nat {
    match e
    case Key(_) => if s.mode == Performance then 1 else 0
    case Write(_) => if |s.io| + 1 >= Batch(s.mode) then 1 else 0
    case Tick =>
      if s.ticks + 1 < Limit(s.mode) then 0 else (if s.queue != [] then 1 else 0) + (if s.io != [] then 1 else 0)
  }

  function AllWakes(s: State, events: seq<Event>): nat
    decreases |events|
  {
    if events == [] then 0 else Wakes(s, events[0]) + AllWakes(Step(s, events[0]), events[1..])
  }

  /** Ordinary text only edits the line. */
  lemma {:induction false} DrainText(s: State)
    requires PlainText(s.queue)
    ensures Drain(s).wakeups == s.wakeups && Drain(s).io == s.io && Drain(s).mode == s.mode && Drain(s).queue == []
    decreases |s.queue|
  {
    if s.queue != [] {
      var u := s.(queue := s.queue[1..]);
      DeliverFrame(u, s.queue[0]);
      DrainText(Deliver(u, s.queue[0]));
    }
  }

  lemma StepWakes(s: State, e: Event)
    requires Inv(s) && PlainText(s.queue) && TextEvents([e])
    ensures Step(s, e).wakeups == s.wakeups + Wakes(s, e) && PlainText(Step(s, e).queue)
  {
    match e
    case Tick =>
      var u := s.(ticks := s.ticks + 1);
      if u.queue != [] { DrainText(u.(wakeups := u.wakeups + 1)); }
    case Key(key) =>
      assert [e][0] == e;
      if s.mode == Performance { DeliverFrame(s.(total := s.total + 1), key); }
    case Write(data) => WriteByNumber(s, data);
  }

  /** While no command runs, every wakeup is a key in Performance, a drained ring or a flushed buffer. */
  lemma {:induction false} WakeupsCount(s: State, events: seq<Event>)
    requires Inv(s) && PlainText(s.queue) && TextEvents(events)
    ensures Run(s, events).wakeups == s.wakeups + AllWakes(s, events)
    decreases |events|
  {
    if events != [] {
      StepWakes(s, events[0]);
      StepKeepsInv(s, events[0]);
      WakeupsCount(Step(s, events[0]), events[1..]);
    }
  }
}
