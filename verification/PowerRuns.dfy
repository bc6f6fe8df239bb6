/**
 What the power manager promises over every run: coalescing is invisible to the shell,
 queued keys are delivered within the mode's tick limit, and the metrics add up.
 */
module PowerRuns {
  import opened PowerSpec

  /** The three entry points an interrupt or a caller can reach. */
  datatype Event = Key(key: char) | Tick | Write(data: char)

  function Step(s: State, e: Event): State {
    match e
    case Key(key) => KeyHook(s, key)
    case Tick => TickHook(s)
    case Write(data) => IoWrite(s, data)
  }

  function Run(s: State, events: seq<Event>): State
    decreases |events|
  {
    if events == [] then s else Run(Step(s, events[0]), events[1..])
  }

  /** Every key pressed, whether or not it was accepted. */
  function Pressed(events: seq<Event>): seq<char> {
    if events == [] then []
    else (if events[0].Key? then [events[0].key] else []) + Pressed(events[1..])
  }

  /** The pressed keys that found fewer than 255 keys pending, in arrival order. */
  function Accepted(s: State, events: seq<Event>): seq<char>
    decreases |events|
  {
    if events == [] then []
    else
      (if events[0].Key? && |s.queue| < 255 then [events[0].key] else [])
      + Accepted(Step(s, events[0]), events[1..])
  }

  function TickCount(events: seq<Event>): nat {
    if events == [] then 0 else (if events[0].Tick? then 1 else 0) + TickCount(events[1..])
  }

  // --------------------------------------------------- the invariant of every boundary

  /** A printed statistics block never shows more wakeups than events. */
  ghost predicate Honest(o: Out) {
    o.Stats? ==> o.wakeups <= o.total && o.saved <= 100
  }

  /** The bookkeeping, with `slack` events accounted for but not yet charged a wakeup. */
  ghost predicate Accounts(s: State, slack: int) {
    && |s.io| < 64
    && s.delayed == s.flushed + |s.io|
    && s.total == |s.delivered| + |s.queue| + s.dropped + s.writes
    && s.wakeups + |s.queue| + |s.io| + slack <= s.total
    && forall i :: 0 <= i < |s.screen| ==> Honest(s.screen[i])
  }

  /** What holds whenever no handler is running. */
  ghost predicate Inv(s: State) {
    && |s.queue| < RING_SIZE
    && (s.mode == Performance ==> s.queue == [])
    && s.ticks < FlushTicks(s.mode)
    && Accounts(s, 0)
  }

  lemma QuotientAtMost(x: nat, d: nat, q: nat)
    requires d > 0 && x <= d * q
    ensures x / d <= q
  {
    var r := x / d;
    assert x == d * r + x % d;
    assert r > q ==> d * (q + 1) <= d * r;
  }

  lemma SavedIsPercentage(total: nat, wakeups: nat)
    requires wakeups <= total
    ensures SavedPercent(total, wakeups) <= 100
  {
    if total > 0 {
      QuotientAtMost((total - wakeups) * 100, total, 100);
    }
  }

  lemma {:induction false} WritesAccount(s: State, data: char, count: nat, slack: nat)
    requires Accounts(s, slack)
    ensures Accounts(IoWrites(s, data, count), slack)
  {
    if count > 0 { WritesAccount(s, data, count - 1, slack); }
  }

  lemma StatsAccount(s: State, slack: nat)
    requires Accounts(s, slack)
    ensures Accounts(PrintStats(s), slack)
  {
    SavedIsPercentage(s.total, s.wakeups);
  }

  /** Printing text changes no account, whatever the mode. */
  lemma SayAccount(s: State, text: string, slack: nat)
    requires Accounts(s, slack)
    ensures Accounts(Say(s, text), slack)
  {}

  lemma HelpAccount(s: State, slack: nat)
    requires Accounts(s, slack)
    ensures Accounts(SayAll(s, HELP_TEXT), slack)
  {}

  lemma ModeAccount(s: State, mode: Mode, slack: nat)
    requires Accounts(s, slack)
    ensures Accounts(SetMode(s, mode), slack)
  {
    var t := Say(s.(mode := mode), "Power Mode Switched to: ");
    SayAccount(s.(mode := mode), "Power Mode Switched to: ", slack);
    SayAccount(t, ModeName(mode), slack);
    SayAccount(Say(t, ModeName(mode)), "\n", slack);
  }

  lemma UnknownAccount(s: State, cmd: string, slack: nat)
    requires Accounts(s, slack)
    ensures Accounts(Say(Say(Say(s, "Unknown command: "), cmd), "\n"), slack)
  {
    SayAccount(s, "Unknown command: ", slack);
    SayAccount(Say(s, "Unknown command: "), cmd, slack);
    SayAccount(Say(Say(s, "Unknown command: "), cmd), "\n", slack);
  }

  lemma SimAccount(s: State, slack: nat)
    requires Accounts(s, slack)
    ensures Accounts(Command(s, "sim"), slack)
  {
    var t := Say(s, "Simulating 100 small I/O writes...\n");
    WritesAccount(t, 'X', SIM_WRITES, slack);
    StatsAccount(Say(IoWrites(t, 'X', SIM_WRITES), "Done. Here are the immediate stats:\n"), slack);
  }

  lemma CommandAccount(s: State, cmd: string, slack: nat)
    requires Accounts(s, slack)
    ensures Accounts(Command(s, cmd), slack)
  {
    HelpAccount(s, slack);
    ModeAccount(s, Performance, slack);
    ModeAccount(s, Balanced, slack);
    ModeAccount(s, EnergySaver, slack);
    StatsAccount(s, slack);
    SimAccount(s, slack);
    UnknownAccount(s, cmd, slack);
  }

  lemma HandleAccount(s: State, key: char, slack: nat)
    requires Accounts(s, slack)
    ensures Accounts(HandleKey(s, key), slack)
  {
    var t := Say(s, "\n");
    if t.line != [] { CommandAccount(t, CString(t.line), slack); }
  }

  /** One loop iteration: even `stats` typed inside a drain sees wakeups <= total. */
  lemma {:induction false} DrainAccount(s: State)
    requires s.queue != [] && Accounts(s, -1)
    ensures Accounts(Drain(s), 0) && Drain(s).queue == []
    ensures Drain(s).delivered == s.delivered + s.queue
    decreases |s.queue|
  {
    var u := s.(queue := s.queue[1..]);
    var v := u.(screen := s.screen + [Echo(s.queue[0])], delivered := s.delivered + [s.queue[0]]);
    HandleAccount(v, s.queue[0], 0);
    DeliverFrame(u, s.queue[0]);
    var t := Deliver(u, s.queue[0]);
    assert s.delivered + s.queue == t.delivered + t.queue;
    if t.queue != [] { DrainAccount(t); }
  }

  lemma FlushIoAccount(s: State)
    requires Accounts(s, 0)
    ensures Accounts(FlushIo(s), 0)
  {}

  /** A flush empties the ring into the shell and restarts the clock. */
  lemma FlushingTick(s: State)
    requires Inv(s) && s.ticks + 1 >= FlushTicks(s.mode)
    ensures var t := TickHook(s); Inv(t) && t.queue == [] && t.ticks == 0 && t.delivered == s.delivered + s.queue
  {
    var u := s.(ticks := s.ticks + 1);
    if u.queue == [] {
      assert s.delivered + s.queue == s.delivered;
    } else {
      DrainAccount(u.(wakeups := u.wakeups + 1));
    }
    FlushIoAccount(FlushKeyboard(u));
  }

  lemma KeyKeepsInv(s: State, key: char)
    requires Inv(s)
    ensures Inv(KeyHook(s, key))
  {
    if s.mode == Performance {
      var u := s.(total := s.total + 1);
      HandleAccount(u.(screen := s.screen + [Echo(key)], delivered := s.delivered + [key]), key, 1);
      DeliverFrame(u, key);
    }
  }

  lemma StepKeepsInv(s: State, e: Event)
    requires Inv(s)
    ensures Inv(Step(s, e))
  {
    match e
    case Tick =>
      if s.ticks + 1 >= FlushTicks(s.mode) { FlushingTick(s); }
    case Key(key) =>
      KeyKeepsInv(s, key);
    case Write(data) =>
      WritesAccount(s, data, 1, 0);
      assert IoWrites(s, data, 0) == s;
  }

  lemma {:induction false} RunKeepsInv(s: State, events: seq<Event>)
    requires Inv(s)
    ensures Inv(Run(s, events))
    decreases |events|
  {
    if events != [] {
      StepKeepsInv(s, events[0]);
      RunKeepsInv(Step(s, events[0]), events[1..]);
    }
  }

  /** From power-up, every reachable boundary satisfies the invariant. */
  lemma Reachable(events: seq<Event>)
    ensures Inv(Run(Initial(), events))
  {
    RunKeepsInv(Initial(), events);
  }

  // ------------------------------------------------------------------- transparency

  lemma TickOrder(s: State)
    requires Inv(s)
    ensures var t := TickHook(s); t.delivered + t.queue == s.delivered + s.queue && t.dropped == s.dropped
  {
    if s.ticks + 1 >= FlushTicks(s.mode) {
      FlushingTick(s);
      var u := s.(ticks := s.ticks + 1);
      if u.queue != [] { DrainDropped(u.(wakeups := u.wakeups + 1)); }
    }
  }

  lemma KeyOrder(s: State, key: char)
    requires Inv(s)
    ensures var t := KeyHook(s, key);
            if |s.queue| < RING_SIZE - 1
            then t.delivered + t.queue == s.delivered + s.queue + [key] && t.dropped == s.dropped
            else t.delivered + t.queue == s.delivered + s.queue && t.dropped == s.dropped + 1
  {
    if s.mode == Performance { DeliverFrame(s.(total := s.total + 1), key); }
  }

  /** One event extends "delivered then pending" by exactly the key it accepted. */
  lemma StepOrder(s: State, e: Event)
    requires Inv(s)
    ensures var t := Step(s, e);
            && t.delivered + t.queue
               == s.delivered + s.queue + (if e.Key? && |s.queue| < 255 then [e.key] else [])
            && t.dropped == s.dropped + (if e.Key? && |s.queue| == 255 then 1 else 0)
  {
    assert s.delivered + s.queue + [] == s.delivered + s.queue;
    if e.Key? {
      KeyOrder(s, e.key);
    } else if e.Tick? {
      TickOrder(s);
    }
  }

  lemma {:induction false} DrainDropped(s: State)
    ensures Drain(s).dropped == s.dropped
    decreases |s.queue|
  {
    if s.queue != [] {
      var u := s.(queue := s.queue[1..]);
      DeliverFrame(u, s.queue[0]);
      DrainDropped(Deliver(u, s.queue[0]));
    }
  }

  lemma Joined(a: seq<char>, b: seq<char>, c: seq<char>)
    ensures a + b + c == a + (b + c)
  {}

  /** At each boundary the shell has seen a prefix of the accepted keys, and the ring holds the rest. */
  lemma {:induction false} DeliveredThenPending(s: State, events: seq<Event>)
    requires Inv(s)
    ensures var t := Run(s, events); t.delivered + t.queue == s.delivered + s.queue + Accepted(s, events)
    ensures Run(s, events).dropped + |Accepted(s, events)| == s.dropped + |Pressed(events)|
    decreases |events|
  {
    if events == [] {
      assert s.delivered + s.queue + Accepted(s, events) == s.delivered + s.queue;
    } else {
      var key := if events[0].Key? && |s.queue| < 255 then [events[0].key] else [];
      StepOrder(s, events[0]);
      StepKeepsInv(s, events[0]);
      DeliveredThenPending(Step(s, events[0]), events[1..]);
      Joined(s.delivered + s.queue, key, Accepted(Step(s, events[0]), events[1..]));
    }
  }

  /** No key is ever lost unless 255 were pending: then acceptance is just pressing. */
  lemma NothingDropped(s: State, events: seq<Event>)
    requires Inv(s)
    ensures Run(s, events).dropped >= s.dropped
    ensures Run(s, events).dropped == s.dropped <==> Accepted(s, events) == Pressed(events)
  {
    DeliveredThenPending(s, events);
    AcceptedWithinPressed(s, events);
  }

  lemma {:induction false} AcceptedWithinPressed(s: State, events: seq<Event>)
    ensures |Accepted(s, events)| <= |Pressed(events)|
    ensures |Accepted(s, events)| == |Pressed(events)| ==> Accepted(s, events) == Pressed(events)
    decreases |events|
  {
    if events != [] { AcceptedWithinPressed(Step(s, events[0]), events[1..]); }
  }

  /** What a person at the console can tell apart: everything but the numbers inside `stats`. */
  datatype View = View(mode: Mode, line: seq<char>, screen: seq<Out>)

  function Erase(o: Out): Out {
    if o.Stats? then Stats(o.mode, 0, 0, 0, 0, 0, 0) else o
  }

  function EraseAll(screen: seq<Out>): seq<Out> {
    seq(|screen|, i requires 0 <= i < |screen| => Erase(screen[i]))
  }

  function ViewOf(s: State): View {
    View(s.mode, s.line, EraseAll(s.screen))
  }

  /** A shell wired straight to the keyboard: every key handled at once, in order. */
  function Direct(s: State, keys: seq<char>): State
    decreases |keys|
  {
    if keys == [] then s else Deliver(Direct(s, keys[..|keys| - 1]), keys[|keys| - 1])
  }

  lemma ExtendView(s: State, t: State, more: seq<Out>, more': seq<Out>)
    requires ViewOf(s) == ViewOf(t) && EraseAll(more) == EraseAll(more')
    ensures EraseAll(s.screen + more) == EraseAll(t.screen + more')
  {
    assert EraseAll(s.screen + more) == EraseAll(s.screen) + EraseAll(more);
    assert EraseAll(t.screen + more') == EraseAll(t.screen) + EraseAll(more');
  }

  lemma SayView(s: State, t: State, text: string)
    requires ViewOf(s) == ViewOf(t)
    ensures ViewOf(Say(s, text)) == ViewOf(Say(t, text))
  {
    ExtendView(s, t, [Text(text)], [Text(text)]);
  }

  lemma StatsView(s: State, t: State)
    requires ViewOf(s) == ViewOf(t)
    ensures ViewOf(PrintStats(s)) == ViewOf(PrintStats(t))
  {
    var a := PrintStats(s).screen[|s.screen|..];
    var b := PrintStats(t).screen[|t.screen|..];
    assert PrintStats(s).screen == s.screen + a && PrintStats(t).screen == t.screen + b;
    assert EraseAll(a) == EraseAll(b);
    ExtendView(s, t, a, b);
  }

  lemma ModeView(s: State, t: State, mode: Mode)
    requires ViewOf(s) == ViewOf(t)
    ensures ViewOf(SetMode(s, mode)) == ViewOf(SetMode(t, mode))
  {
    var s, t := s.(mode := mode), t.(mode := mode);
    SayView(s, t, "Power Mode Switched to: ");
    var s1, t1 := Say(s, "Power Mode Switched to: "), Say(t, "Power Mode Switched to: ");
    SayView(s1, t1, ModeName(mode));
    SayView(Say(s1, ModeName(mode)), Say(t1, ModeName(mode)), "\n");
  }

  lemma SimView(s: State, t: State)
    requires ViewOf(s) == ViewOf(t)
    ensures ViewOf(Command(s, "sim")) == ViewOf(Command(t, "sim"))
  {
    var intro, done := "Simulating 100 small I/O writes...\n", "Done. Here are the immediate stats:\n";
    SayView(s, t, intro);
    IoWritesFrame(Say(s, intro), 'X', SIM_WRITES);
    IoWritesFrame(Say(t, intro), 'X', SIM_WRITES);
    var s1, t1 := IoWrites(Say(s, intro), 'X', SIM_WRITES), IoWrites(Say(t, intro), 'X', SIM_WRITES);
    SayView(s1, t1, done);
    StatsView(Say(s1, done), Say(t1, done));
  }

  lemma CommandView(s: State, t: State, cmd: string)
    requires ViewOf(s) == ViewOf(t)
    ensures ViewOf(Command(s, cmd)) == ViewOf(Command(t, cmd))
  {
    if cmd == "help" {
      var help := seq(|HELP_TEXT|, i requires 0 <= i < |HELP_TEXT| => Text(HELP_TEXT[i]));
      ExtendView(s, t, help, help);
    } else if cmd == "perf" {
      ModeView(s, t, Performance);
    } else if cmd == "bal" {
      ModeView(s, t, Balanced);
    } else if cmd == "power" {
      ModeView(s, t, EnergySaver);
    } else if cmd == "stats" {
      StatsView(s, t);
    } else if cmd == "sim" {
      SimView(s, t);
    } else if cmd == "clear" {
      ExtendView(s, t, [Cleared], [Cleared]);
    } else {
      SayView(s, t, "Unknown command: ");
      var s1, t1 := Say(s, "Unknown command: "), Say(t, "Unknown command: ");
      SayView(s1, t1, cmd);
      SayView(Say(s1, cmd), Say(t1, cmd), "\n");
    }
  }

  lemma ExecuteView(s: State, t: State)
    requires ViewOf(s) == ViewOf(t)
    ensures ViewOf(Execute(s)) == ViewOf(Execute(t))
  {
    SayView(s, t, "\n");
    var s1, t1 := Say(s, "\n"), Say(t, "\n");
    if s1.line != [] { CommandView(s1, t1, CString(s1.line)); }
    var s2 := if s1.line == [] then s1 else Command(s1, CString(s1.line));
    var t2 := if t1.line == [] then t1 else Command(t1, CString(t1.line));
    SayView(s2.(line := []), t2.(line := []), "YieldOS> ");
  }

  /** Handling a key depends on nothing the view hides. */
  lemma DeliverView(s: State, t: State, key: char)
    requires ViewOf(s) == ViewOf(t)
    ensures ViewOf(Deliver(s, key)) == ViewOf(Deliver(t, key))
  {
    ExtendView(s, t, [Echo(key)], [Echo(key)]);
    var s1 := s.(screen := s.screen + [Echo(key)], delivered := s.delivered + [key]);
    var t1 := t.(screen := t.screen + [Echo(key)], delivered := t.delivered + [key]);
    if key == '\n' || key == '\r' { ExecuteView(s1, t1); }
  }

  /** Nothing but an entered `perf`, `bal` or `power` changes the mode, and each selects its own. */
  lemma ModeCommands(s: State, key: char)
    ensures var cmd := CString(s.line);
            Deliver(s, key).mode
            == if (key == '\n' || key == '\r') && cmd == "perf" then Performance
               else if (key == '\n' || key == '\r') && cmd == "bal" then Balanced
               else if (key == '\n' || key == '\r') && cmd == "power" then EnergySaver
               else s.mode
  {
    var u := Say(s.(screen := s.screen + [Echo(key)], delivered := s.delivered + [key]), "\n");
    IoWritesFrame(Say(u, "Simulating 100 small I/O writes...\n"), 'X', SIM_WRITES);
    if s.line == [] { assert CString(s.line) == []; }
  }

  /** Backspace undoes an ordinary key, unless the line was already full. */
  lemma EraseUndoesKey(s: State, key: char)
    requires key != '\n' && key != '\r' && key != '\U{08}' && |s.line| <= 255
    ensures |s.line| < 255 ==> HandleKey(s, key).line == s.line + [key]
    ensures HandleKey(HandleKey(s, key), '\U{08}') == s <==> |s.line| < 255
  {
    var t := HandleKey(s, key);
    if |s.line| < LINE_MAX {
      assert t.line[..|t.line| - 1] == s.line;
      assert HandleKey(t, BACKSPACE).line == s.line;
    }
  }

  /**
   Why the mode may change only through delivered keys: a caller that switched to
   Performance from outside would let the next key overtake everything pending.
   */
  lemma OutsideModeChangeReorders(s: State, key: char)
    requires Inv(s) && s.queue != []
    ensures var t := KeyHook(SetMode(s, Performance), key);
            && t.delivered == s.delivered + [key] && t.queue == s.queue
            && (t.delivered + t.queue == s.delivered + s.queue + [key] <==> [key] + s.queue == s.queue + [key])
  {
    DispatchedAtOnce(SetMode(s, Performance), key);
    SamePrefix(s.delivered, [key], s.queue);
  }

  lemma DispatchedAtOnce(s: State, key: char)
    requires s.mode == Performance
    ensures KeyHook(s, key).delivered == s.delivered + [key] && KeyHook(s, key).queue == s.queue
  {
    DeliverFrame(s.(total := s.total + 1), key);
  }

  lemma SamePrefix(a: seq<char>, b: seq<char>, c: seq<char>)
    ensures a + b + c == a + c + b <==> b + c == c + b
  {
    assert a + b + c == a + (b + c) && a + c + b == a + (c + b);
    assert b + c == (a + (b + c))[|a|..] && c + b == (a + (c + b))[|a|..];
  }

  /** The console looks as if `s.delivered` had been typed into the direct shell. */
  ghost predicate LooksDirect(s: State) {
    ViewOf(s) == ViewOf(Direct(Initial(), s.delivered))
  }

  lemma DeliverLooksDirect(s: State, key: char)
    requires LooksDirect(s)
    ensures LooksDirect(Deliver(s, key))
  {
    DeliverFrame(s, key);
    var keys := s.delivered + [key];
    assert keys[..|keys| - 1] == s.delivered;
    DeliverView(s, Direct(Initial(), s.delivered), key);
  }

  lemma {:induction false} DrainLooksDirect(s: State)
    requires LooksDirect(s)
    ensures LooksDirect(Drain(s))
    decreases |s.queue|
  {
    if s.queue != [] {
      var u := s.(queue := s.queue[1..]);
      DeliverFrame(u, s.queue[0]);
      DeliverLooksDirect(u, s.queue[0]);
      DrainLooksDirect(Deliver(u, s.queue[0]));
    }
  }

  /** Counters, clock and queue do not show. */
  lemma SameLook(s: State, t: State)
    requires LooksDirect(s) && ViewOf(t) == ViewOf(s) && t.delivered == s.delivered
    ensures LooksDirect(t)
  {}

  lemma KeyLooksDirect(s: State, key: char)
    requires LooksDirect(s)
    ensures LooksDirect(KeyHook(s, key))
  {
    var u := s.(total := s.total + 1);
    SameLook(s, u);
    if s.mode == Performance { NowLooksDirect(u, key); } else { SameLook(u, Enqueue(u, key)); }
  }

  lemma NowLooksDirect(s: State, key: char)
    requires LooksDirect(s)
    ensures LooksDirect(DeliverNow(s, key))
  {
    DeliverLooksDirect(s, key);
    SameLook(Deliver(s, key), DeliverNow(s, key));
  }

  lemma TickLooksDirect(s: State)
    requires LooksDirect(s)
    ensures LooksDirect(TickHook(s))
  {
    var u := s.(ticks := s.ticks + 1);
    SameLook(s, u);
    if u.ticks >= FlushTicks(u.mode) {
      if u.queue != [] {
        SameLook(u, u.(wakeups := u.wakeups + 1));
        DrainLooksDirect(u.(wakeups := u.wakeups + 1));
      }
      SameLook(FlushKeyboard(u), FlushIo(FlushKeyboard(u)).(ticks := 0));
    }
  }

  lemma StepLooksDirect(s: State, e: Event)
    requires LooksDirect(s)
    ensures LooksDirect(Step(s, e))
  {
    match e
    case Key(key) => KeyLooksDirect(s, key);
    case Tick => TickLooksDirect(s);
    case Write(data) => SameLook(s, IoWrite(s, data));
  }

  lemma {:induction false} RunLooksDirect(s: State, events: seq<Event>)
    requires LooksDirect(s)
    ensures LooksDirect(Run(s, events))
    decreases |events|
  {
    if events != [] {
      StepLooksDirect(s, events[0]);
      RunLooksDirect(Step(s, events[0]), events[1..]);
    }
  }

  /**
   Coalescing is transparent. After any run, mode, edit line and screen are those of the
   direct shell fed the delivered keys, and those keys are a prefix of the accepted ones.
   Once the ring is empty and nothing was dropped, they are simply all keys pressed.
   */
  lemma CoalescingIsTransparent(events: seq<Event>)
    ensures var s := Run(Initial(), events);
            && s.delivered + s.queue == Accepted(Initial(), events)
            && ViewOf(s) == ViewOf(Direct(Initial(), s.delivered))
            && (s.queue == [] && s.dropped == 0 ==> ViewOf(s) == ViewOf(Direct(Initial(), Pressed(events))))
  {
    AcceptedInOrder(events);
    assert Direct(Initial(), []) == Initial();
    RunLooksDirect(Initial(), events);
  }

  lemma AcceptedInOrder(events: seq<Event>)
    ensures var s := Run(Initial(), events);
            && s.delivered + s.queue == Accepted(Initial(), events)
            && (s.queue == [] && s.dropped == 0 ==> s.delivered == Pressed(events))
  {
    DeliveredThenPending(Initial(), events);
    NothingDropped(Initial(), events);
    assert [] + [] + Accepted(Initial(), events) == Accepted(Initial(), events);
  }

  // ------------------------------------------------------------------------ latency

  lemma {:induction false} RunExtendsDelivered(s: State, events: seq<Event>)
    requires Inv(s)
    ensures s.delivered <= Run(s, events).delivered
    decreases |events|
  {
    if events != [] {
      DeliveredGrows(s, events[0]);
      StepKeepsInv(s, events[0]);
      RunExtendsDelivered(Step(s, events[0]), events[1..]);
    }
  }

  lemma DeliveredGrows(s: State, e: Event)
    requires Inv(s)
    ensures s.delivered <= Step(s, e).delivered
  {
    match e
    case Tick =>
      if s.ticks + 1 >= FlushTicks(s.mode) { FlushingTick(s); }
    case Key(key) =>
      if s.mode == Performance { DeliverFrame(s.(total := s.total + 1), key); }
    case Write(data) =>
  }

  /**
   Every key pending now is in the shell after `FlushTicks(mode)` more ticks at the latest,
   whatever else happens: while keys wait, nothing can change the mode or reset the clock.
   */
  lemma {:induction false} BoundedLatency(s: State, events: seq<Event>)
    requires Inv(s) && s.ticks + TickCount(events) >= FlushTicks(s.mode)
    ensures s.delivered + s.queue <= Run(s, events).delivered
    decreases |events|
  {
    var t := Step(s, events[0]);
    StepKeepsInv(s, events[0]);
    if events[0].Tick? && s.ticks + 1 >= FlushTicks(s.mode) {
      FlushingTick(s);
      RunExtendsDelivered(t, events[1..]);
    } else if s.mode == Performance {
      assert s.delivered + s.queue == s.delivered;
      RunExtendsDelivered(s, events);
    } else {
      BoundedLatency(t, events[1..]);
    }
  }

  /** In ticks: 10 for a key queued in Balanced, 50 in Energy Saver. */
  lemma DeliveredInTime(s: State, events: seq<Event>)
    requires Inv(s) && s.queue != [] && TickCount(events) >= if s.mode == Balanced then 10 else 50
    ensures s.delivered + s.queue <= Run(s, events).delivered
  {
    BoundedLatency(s, events);
  }

  /** Between ticks nothing leaves the ring: the mode is fixed while keys are pending. */
  lemma PendingFixesMode(s: State, e: Event)
    requires Inv(s) && s.queue != [] && Step(s, e).queue != []
    ensures Step(s, e).mode == s.mode && s.queue <= Step(s, e).queue
  {
    if e.Tick? && s.ticks + 1 >= FlushTicks(s.mode) { FlushingTick(s); }
  }

  // --------------------------------------------------------------------- accounting

  /** The metrics of any reachable boundary, and every `stats` block ever printed. */
  lemma MetricsAddUp(events: seq<Event>)
    ensures var s := Run(Initial(), events);
            && s.delayed == s.flushed + |s.io| && |s.io| < 64
            && s.total == |s.delivered| + |s.queue| + s.dropped + s.writes
            && s.wakeups + |s.queue| + |s.io| <= s.total
            && SavedPercent(s.total, s.wakeups) <= 100
            && forall i :: 0 <= i < |s.screen| && s.screen[i].Stats? ==>
                             s.screen[i].wakeups <= s.screen[i].total && s.screen[i].saved <= 100
  {
    Reachable(events);
    var s := Run(Initial(), events);
    SavedIsPercentage(s.total, s.wakeups);
    assert forall i :: 0 <= i < |s.screen| ==> Honest(s.screen[i]);
  }
}
