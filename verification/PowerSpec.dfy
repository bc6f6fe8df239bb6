/**
 The power manager and the shell of RESEARCH-OS (power.c and shell.c) as one
 value-level state machine. Each hook of the C code is one function on `State`;
 the class in PowerManager.dfy is proved to compute exactly these functions.

 Three fields (`delivered`, `dropped`, `writes`) are history: the C code does not
 keep them, they only name what has happened so far.
 */
module PowerSpec {

  datatype Mode = Performance | Balanced | EnergySaver

  /** What reaches the screen, one entry per visible action. */
  datatype Out =
    | Echo(key: char)
    | Text(text: string)
    | Cleared
    | Stats(mode: Mode, wakeups: nat, coalesced: nat, delayed: nat, flushed: nat, total: nat, saved: nat)

  datatype State = State(
    mode: Mode,
    queue: seq<char>,     // keystrokes waiting in the ring, oldest first
    line: seq<char>,      // cmdbuf[..cmdlen]
    io: seq<char>,        // io_buffer[..io_buffer_count]
    ticks: nat,           // ticks_since_flush
    wakeups: nat,
    coalesced: nat,
    delayed: nat,
    flushed: nat,
    total: nat,
    screen: seq<Out>,
    delivered: seq<char>, // history: keys handed to the shell
    dropped: nat,         // history: keys refused by a full ring
    writes: nat)          // history: calls of power_io_write

  const RING_SIZE := 256
  const LINE_MAX := 255
  const IO_BUFFER_SIZE := 256
  const SIM_WRITES := 100
  const BACKSPACE := '\U{08}'

  function FlushTicks(mode: Mode): nat {
    match mode
    case Performance => 1
    case Balanced => 10
    case EnergySaver => 50
  }

  function IoBatch(mode: Mode): nat {
    match mode
    case Performance => 1
    case Balanced => 16
    case EnergySaver => 64
  }

  function ModeName(mode: Mode): string {
    match mode
    case Performance => "Performance"
    case Balanced => "Balanced"
    case EnergySaver => "Energy Saver"
  }

  function Initial(): State {
    State(Balanced, [], [], [], 0, 0, 0, 0, 0, 0,
          [Text("Power Manager INIT: Balanced Mode active.\n")], [], 0, 0)
  }

  // ---------------------------------------------------------------- power.c

  function Say(s: State, text: string): State {
    s.(screen := s.screen + [Text(text)])
  }

  function SetMode(s: State, mode: Mode): State {
    Say(Say(Say(s.(mode := mode), "Power Mode Switched to: "), ModeName(mode)), "\n")
  }

  function SavedPercent(total: nat, wakeups: nat): nat {
    if total > 0 && total >= wakeups then (total - wakeups) * 100 / total else 0
  }

  function PrintStats(s: State): State {
    s.(screen := s.screen + [Stats(s.mode, s.wakeups, s.coalesced, s.delayed, s.flushed, s.total,
                                   SavedPercent(s.total, s.wakeups))])
  }

  function FlushIo(s: State): State {
    if s.io == [] then s
    else s.(wakeups := s.wakeups + 1, flushed := s.flushed + |s.io|, io := [])
  }

  function IoWrite(s: State, data: char): State {
    var s := s.(total := s.total + 1, writes := s.writes + 1);
    var s := if |s.io| < IO_BUFFER_SIZE then s.(io := s.io + [data], delayed := s.delayed + 1) else s;
    if |s.io| >= IoBatch(s.mode) then FlushIo(s) else s
  }

  /** `count` writes of the same byte, as the `sim` command issues them. */
  function IoWrites(s: State, data: char, count: nat): State {
    if count == 0 then s else IoWrite(IoWrites(s, data, count - 1), data)
  }

  // ---------------------------------------------------------------- shell.c

  /** The C string held in a buffer: everything before the first NUL. */
  function CString(buffer: seq<char>): string {
    if buffer == [] || buffer[0] == '\0' then [] else [buffer[0]] + CString(buffer[1..])
  }

  const HELP_TEXT := [
    "Commands:\n",
    "  help    - Show this message\n",
    "  perf    - Set Performance Mode (No coalescing)\n",
    "  bal     - Set Balanced Mode\n",
    "  power   - Set Energy Saver Mode (Max coalescing)\n",
    "  stats   - Print energy/wakeups metrics\n",
    "  sim     - Simulate 100 small disk writes\n",
    "  clear   - Clear screen\n"]

  function SayAll(s: State, texts: seq<string>): State {
    s.(screen := s.screen + seq(|texts|, i requires 0 <= i < |texts| => Text(texts[i])))
  }

  /** The branch of execute_command chosen by the command string. */
  function Command(s: State, cmd: string): State {
    if cmd == "help" then SayAll(s, HELP_TEXT)
    else if cmd == "perf" then SetMode(s, Performance)
    else if cmd == "bal" then SetMode(s, Balanced)
    else if cmd == "power" then SetMode(s, EnergySaver)
    else if cmd == "stats" then PrintStats(s)
    else if cmd == "sim" then
      PrintStats(Say(IoWrites(Say(s, "Simulating 100 small I/O writes...\n"), 'X', SIM_WRITES),
                     "Done. Here are the immediate stats:\n"))
    else if cmd == "clear" then s.(screen := s.screen + [Cleared])
    else Say(Say(Say(s, "Unknown command: "), cmd), "\n")
  }

  function Execute(s: State): State {
    var s := Say(s, "\n");
    var s := if s.line == [] then s else Command(s, CString(s.line));
    Say(s.(line := []), "YieldOS> ")
  }

  function HandleKey(s: State, key: char): State {
    if key == '\n' || key == '\r' then Execute(s)
    else if key == BACKSPACE then
      if s.line == [] then s else s.(line := s.line[..|s.line| - 1])
    else if |s.line| < LINE_MAX then s.(line := s.line + [key])
    else s
  }

  /** vga_putc followed by shell_handle_key, in both places where power.c does so. */
  function Deliver(s: State, key: char): State {
    HandleKey(s.(screen := s.screen + [Echo(key)], delivered := s.delivered + [key]), key)
  }

  // ------------------------------------------------------------------ hooks

  /** The loop of flush_keyboard_queue. */
  function Drain(s: State): State
    decreases |s.queue|
  {
    if s.queue == [] then s
    else
      var t := Deliver(s.(queue := s.queue[1..]), s.queue[0]);
      DeliverFrame(s.(queue := s.queue[1..]), s.queue[0]);
      Drain(t)
  }

  function FlushKeyboard(s: State): State {
    if s.queue == [] then s else Drain(s.(wakeups := s.wakeups + 1))
  }

  /** A key that goes to the shell at once. */
  function DeliverNow(s: State, key: char): State {
    var s := Deliver(s, key);
    s.(wakeups := s.wakeups + 1)
  }

  /** A key that waits in the ring, if the ring has room. */
  function Enqueue(s: State, key: char): State {
    if |s.queue| < RING_SIZE - 1 then s.(queue := s.queue + [key], coalesced := s.coalesced + 1)
    else s.(dropped := s.dropped + 1)
  }

  function KeyHook(s: State, key: char): State {
    var s := s.(total := s.total + 1);
    if s.mode == Performance then DeliverNow(s, key) else Enqueue(s, key)
  }

  function TickHook(s: State): State {
    var s := s.(ticks := s.ticks + 1);
    if s.ticks >= FlushTicks(s.mode) then FlushIo(FlushKeyboard(s)).(ticks := 0) else s
  }

  // ------------------------------------------------- what a delivery leaves alone

  lemma {:induction false} IoWritesFrame(s: State, data: char, count: nat)
    ensures var t := IoWrites(s, data, count);
            && t.queue == s.queue && t.line == s.line && t.mode == s.mode && t.screen == s.screen
            && t.ticks == s.ticks && t.delivered == s.delivered && t.dropped == s.dropped
            && t.coalesced == s.coalesced && t.flushed >= s.flushed && t.delayed >= s.delayed
  {
    if count > 0 { IoWritesFrame(s, data, count - 1); }
  }

  lemma CommandFrame(s: State, cmd: string)
    ensures var t := Command(s, cmd);
            && t.queue == s.queue && t.ticks == s.ticks && t.dropped == s.dropped
            && t.coalesced == s.coalesced && t.delivered == s.delivered
            && t.flushed >= s.flushed && t.delayed >= s.delayed
  {
    if cmd == "sim" { IoWritesFrame(Say(s, "Simulating 100 small I/O writes...\n"), 'X', SIM_WRITES); }
  }

  /** The shell never touches the key ring, so the drain loop cannot be fed while it runs. */
  lemma DeliverFrame(s: State, key: char)
    ensures var t := Deliver(s, key);
            && t.queue == s.queue && t.ticks == s.ticks && t.dropped == s.dropped
            && t.coalesced == s.coalesced && t.delivered == s.delivered + [key]
            && t.flushed >= s.flushed && t.delayed >= s.delayed
  {
    var u := Say(s.(screen := s.screen + [Echo(key)], delivered := s.delivered + [key]), "\n");
    CommandFrame(u, CString(u.line));
  }

  /** One turn of the drain loop, and why it terminates. */
  lemma DrainStep(s: State)
    requires s.queue != []
    ensures var t := Deliver(s.(queue := s.queue[1..]), s.queue[0]);
            Drain(s) == Drain(t) && t.queue == s.queue[1..]
  {
    DeliverFrame(s.(queue := s.queue[1..]), s.queue[0]);
  }
}
