/**
 power.c and shell.c as they run: static arrays and counters updated in place. The two
 files call each other, so their statics are the fields of one class. Every method is
 proved to move the abstract state exactly as its namesake in PowerSpec does.
 */
module PowerManager {
  import opened PowerSpec
  import PowerCounts
  import PowerRuns

  /** The contents of a circular buffer from `tail` up to `head`. */
  function Pending(ring: seq<char>, tail: nat, head: nat): seq<char>
    requires tail < |ring| && head < |ring|
  {
    if tail <= head then ring[tail..head] else ring[tail..] + ring[..head]
  }

  /** Storing at the head and stepping it appends, provided the ring is not full. */
  lemma PendingPush(ring: seq<char>, tail: nat, head: nat, key: char)
    requires |ring| == RING_SIZE && tail < |ring| && head < |ring| && (head + 1) % RING_SIZE != tail
    ensures Pending(ring[head := key], tail, (head + 1) % RING_SIZE) == Pending(ring, tail, head) + [key]
  {
    var after := ring[head := key];
    if tail > head {
      assert after[tail..] == ring[tail..] && after[..head + 1] == ring[..head] + [key];
    } else if head + 1 < RING_SIZE {
      assert after[tail..head + 1] == ring[tail..head] + [key];
    } else {
      assert after[tail..] + after[..0] == ring[tail..head] + [key];
    }
  }

  lemma PendingHead(ring: seq<char>, tail: nat, head: nat)
    requires tail < |ring| && head < |ring| && tail != head
    ensures Pending(ring, tail, head) != [] && Pending(ring, tail, head)[0] == ring[tail]
  {}

  /** Reading at the tail and stepping it removes the oldest key. */
  lemma PendingPop(ring: seq<char>, tail: nat, head: nat)
    requires |ring| == RING_SIZE && tail < |ring| && head < |ring| && tail != head
    ensures Pending(ring, tail, head) != [] && Pending(ring, tail, head)[0] == ring[tail]
    ensures Pending(ring, (tail + 1) % RING_SIZE, head) == Pending(ring, tail, head)[1..]
  {
    PendingHead(ring, tail, head);
    if tail < head {
      assert (tail + 1) % RING_SIZE == tail + 1;
      assert ring[tail..head][1..] == ring[tail + 1..head];
    } else if tail + 1 == RING_SIZE {
      assert (tail + 1) % RING_SIZE == 0;
      assert (ring[tail..] + ring[..head])[1..] == ring[0..head];
    } else {
      assert (tail + 1) % RING_SIZE == tail + 1;
      assert (ring[tail..] + ring[..head])[1..] == ring[tail + 1..] + ring[..head];
    }
  }

  /** One slot always stays free: the ring is full at 255 keys. */
  lemma PendingFull(ring: seq<char>, tail: nat, head: nat)
    requires |ring| == RING_SIZE && tail < |ring| && head < |ring|
    ensures |Pending(ring, tail, head)| == 255 <==> (head + 1) % 256 == tail
    ensures |Pending(ring, tail, head)| < RING_SIZE
    ensures Pending(ring, tail, head) == [] <==> tail == head
  {
    assert |Pending(ring, tail, head)| == if tail <= head then head - tail else RING_SIZE - tail + head;
  }

  // ------------------------------------------------------------------ C strings

  lemma {:induction false} CStringIs(buffer: seq<char>, n: nat)
    requires n < |buffer| && buffer[n] == '\0' && forall k :: 0 <= k < n ==> buffer[k] != '\0'
    ensures CString(buffer) == buffer[..n]
  {
    if n > 0 {
      CStringIs(buffer[1..], n - 1);
      assert buffer[..n] == [buffer[0]] + buffer[1..][..n - 1];
    }
  }

  /** The bytes after the first NUL, or after the end, do not matter. */
  lemma {:induction false} CStringPrefix(buffer: seq<char>, rest: seq<char>)
    ensures CString(buffer + ['\0'] + rest) == CString(buffer)
  {
    if buffer == [] {
      assert (buffer + ['\0'] + rest)[0] == '\0';
    } else {
      assert (buffer + ['\0'] + rest)[1..] == buffer[1..] + ['\0'] + rest;
      CStringPrefix(buffer[1..], rest);
    }
  }

  lemma {:induction false} CStringAgree(a: seq<char>, b: seq<char>, n: nat)
    requires n < |a| && n < |b| && forall k :: 0 <= k < n ==> a[k] == b[k] && a[k] != '\0'
    requires a[n] != b[n] || a[n] == '\0'
    ensures CString(a) == CString(b) <==> a[n] == b[n]
  {
    if n > 0 {
      CStringAgree(a[1..], b[1..], n - 1);
      assert CString(a)[1..] == CString(a[1..]) && CString(b)[1..] == CString(b[1..]);
    }
  }

  /** The loop of shell.c's strcmp over two NUL-terminated buffers. */
  method StrCmp(s1: seq<char>, s2: seq<char>) returns (r: int)
    requires '\0' in s1 && '\0' in s2
    ensures r == 0 <==> CString(s1) == CString(s2)
    ensures exists k :: 0 <= k < |s1| && k < |s2| && s1[..k] == s2[..k] && r == s1[k] as int - s2[k] as int
  {
    ghost var end1 :| 0 <= end1 < |s1| && s1[end1] == '\0';
    ghost var end2 :| 0 <= end2 < |s2| && s2[end2] == '\0';
    var i := 0;
    while s1[i] != '\0' && s1[i] == s2[i]
      invariant 0 <= i <= end1 && i <= end2
      invariant forall k :: 0 <= k < i ==> s1[k] == s2[k] && s1[k] != '\0'
      decreases end1 - i
    {
      i := i + 1;
    }
    CStringAgree(s1, s2, i);
    r := s1[i] as int - s2[i] as int;
    assert s1[..i] == s2[..i];
  }

  // ----------------------------------------------------------------- print_num

  function DigitsValue(text: string): int {
    if text == [] then 0
    else DigitsValue(text[..|text| - 1]) * 10 + (text[|text| - 1] as int - '0' as int)
  }

  function Pow10(n: nat): nat {
    if n == 0 then 1 else 10 * Pow10(n - 1)
  }

  function Reversed(s: seq<char>): (r: seq<char>) {
    if s == [] then [] else Reversed(s[1..]) + [s[0]]
  }

  /** The value of digits stored least significant first, as print_num collects them. */
  function LittleValue(s: seq<char>): int {
    if s == [] then 0 else (s[0] as int - '0' as int) + 10 * LittleValue(s[1..])
  }

  lemma {:induction false} ReversedValue(s: seq<char>)
    ensures |Reversed(s)| == |s| && DigitsValue(Reversed(s)) == LittleValue(s)
    ensures s != [] ==> Reversed(s)[0] == s[|s| - 1]
  {
    if s != [] {
      ReversedValue(s[1..]);
      var r := Reversed(s);
      assert r[..|r| - 1] == Reversed(s[1..]);
    }
  }

  lemma {:induction false} LittleAppend(s: seq<char>, d: char)
    ensures LittleValue(s + [d]) == LittleValue(s) + Pow10(|s|) * (d as int - '0' as int)
  {
    if s == [] {
      assert (s + [d])[1..] == [];
    } else {
      assert (s + [d])[1..] == s[1..] + [d];
      LittleAppend(s[1..], d);
      var v := d as int - '0' as int;
      assert 10 * (Pow10(|s| - 1) * v) == (10 * Pow10(|s| - 1)) * v;
    }
  }

  /** `number` is the digits collected so far plus `left` units of the next decimal place. */
  ghost predicate Splits(number: nat, digits: seq<char>, left: nat) {
    LittleValue(digits) + Pow10(|digits|) * left == number && LittleValue(digits) >= 0
  }

  function Digit(n: nat): (d: char)
    requires n < 10
    ensures '0' <= d <= '9' && d as int - '0' as int == n
  {
    (n + '0' as int) as char
  }

  lemma SplitProduct(power: nat, left: nat)
    ensures power * left == (10 * power) * (left / 10) + power * (left % 10)
    ensures power * (left % 10) >= 0
  {
    var q, r := left / 10, left % 10;
    assert left == 10 * q + r;
    assert power * (10 * q + r) == power * (10 * q) + power * r;
    assert power * (10 * q) == (10 * power) * q;
  }

  lemma DigitStep(number: nat, digits: seq<char>, left: nat)
    requires Splits(number, digits, left)
    ensures Splits(number, digits + [Digit(left % 10)], left / 10)
  {
    LittleAppend(digits, Digit(left % 10));
    SplitProduct(Pow10(|digits|), left);
  }

  lemma AtMost20(number: nat, digits: seq<char>, left: nat)
    requires Splits(number, digits, left) && left > 0 && number < 0x1_0000_0000_0000_0000
    ensures |digits| < 20
  {
    if |digits| >= 20 {
      Pow10Grows(20, |digits|);
      Pow10At20();
      TimesAtLeastOne(Pow10(|digits|), left);
      assert false;
    }
  }

  lemma TimesAtLeastOne(a: nat, b: nat)
    requires b > 0
    ensures a <= a * b
  {}

  lemma Pow10At20()
    ensures Pow10(20) == 100_000_000_000_000_000_000
  {
    assert Pow10(5) == 100_000;
    assert Pow10(10) == 10_000_000_000;
    assert Pow10(15) == 1_000_000_000_000_000;
  }

  lemma {:induction false} Pow10Grows(m: nat, n: nat)
    requires m <= n
    ensures Pow10(m) <= Pow10(n)
    decreases n
  {
    if m < n { Pow10Grows(m, n - 1); }
  }

  ghost predicate AllDigits(s: seq<char>) {
    forall k :: 0 <= k < |s| ==> '0' <= s[k] <= '9'
  }

  /** The first loop of print_num: the digits of a 64-bit value, least significant first. */
  method CollectDigits(number: nat, buf: array<char>) returns (i: nat)
    requires 0 < number < 0x1_0000_0000_0000_0000 && buf.Length == 20
    modifies buf
    ensures 1 <= i <= 20 && AllDigits(buf[..i]) && LittleValue(buf[..i]) == number && buf[i - 1] != '0'
  {
    i := 0;
    var n := number;
    while n > 0
      invariant 0 <= i <= 20 && n >= 0 && Splits(number, buf[..i], n) && AllDigits(buf[..i])
      invariant n == 0 ==> i > 0 && buf[i - 1] != '0'
    {
      ghost var before := buf[..i];
      AtMost20(number, before, n);
      DigitStep(number, before, n);
      buf[i] := Digit(n % 10);
      assert buf[..i + 1] == before + [Digit(n % 10)];
      n := n / 10;
      i := i + 1;
    }
  }

  /**
   print_num: any 64-bit value fits the 20-byte buffer, and what is printed is its decimal
   numeral without leading zeros.
   */
  method PrintNum(number: nat) returns (text: string)
    requires number < 0x1_0000_0000_0000_0000
    ensures DigitsValue(text) == number && 1 <= |text| <= 20 && AllDigits(text)
    ensures text[0] == '0' ==> text == "0"
  {
    if number == 0 {
      assert DigitsValue("0") == 0;
      return "0";
    }
    var buf := new char[20];
    var i := CollectDigits(number, buf);
    ghost var digits := buf[..i];
    text := [];
    while i > 0
      invariant 0 <= i <= |digits| && digits[..i] == buf[..i]
      invariant text == Reversed(digits[i..]) && AllDigits(text)
    {
      i := i - 1;
      assert buf[i] == digits[i] && digits[i..][1..] == digits[i + 1..];
      text := text + [buf[i]];
    }
    assert digits[0..] == digits;
    ReversedValue(digits);
  }

  // ---------------------------------------------------------------- the statics

  class PowerShell {
    var mode: Mode
    const keyboardQueue: array<char>
    var head: nat
    var tail: nat
    const ioBuffer: array<char>
    var ioCount: nat
    var ticks: nat
    var wakeups: nat
    var coalesced: nat
    var delayed: nat
    var flushed: nat
    var total: nat
    const cmdbuf: array<char>
    var cmdlen: nat
    var screen: seq<Out>
    ghost var delivered: seq<char>
    ghost var dropped: nat
    ghost var writes: nat

    ghost predicate Valid()
      reads this, keyboardQueue, ioBuffer, cmdbuf
    {
      && keyboardQueue.Length == RING_SIZE && ioBuffer.Length == IO_BUFFER_SIZE && cmdbuf.Length == LINE_MAX + 1
      && keyboardQueue != ioBuffer && ioBuffer != cmdbuf && keyboardQueue != cmdbuf
      && head < RING_SIZE && tail < RING_SIZE
      && ioCount <= IO_BUFFER_SIZE && cmdlen <= LINE_MAX
    }

    ghost function Abs(): State
      requires Valid()
      reads this, keyboardQueue, ioBuffer, cmdbuf
    {
      State(mode, Pending(keyboardQueue[..], tail, head), cmdbuf[..cmdlen], ioBuffer[..ioCount],
            ticks, wakeups, coalesced, delayed, flushed, total, screen, delivered, dropped, writes)
    }

    constructor ()
      ensures Valid() && Abs() == Initial()
      ensures fresh(keyboardQueue) && fresh(ioBuffer) && fresh(cmdbuf)
    {
      mode := Balanced;
      keyboardQueue := new char[RING_SIZE];
      ioBuffer := new char[IO_BUFFER_SIZE];
      cmdbuf := new char[LINE_MAX + 1];
      head, tail, ioCount, ticks, cmdlen := 0, 0, 0, 0, 0;
      wakeups, coalesced, delayed, flushed, total := 0, 0, 0, 0, 0;
      screen := [Text("Power Manager INIT: Balanced Mode active.\n")];
      delivered, dropped, writes := [], 0, 0;
    }

    method CountWakeup()
      requires Valid()
      modifies this`wakeups
      ensures Valid() && Abs() == old(Abs()).(wakeups := old(wakeups) + 1)
    {
      wakeups := wakeups + 1;
    }

    method CountEvent()
      requires Valid()
      modifies this`total
      ensures Valid() && Abs() == old(Abs()).(total := old(total) + 1)
    {
      total := total + 1;
    }

    method SetTicks(n: nat)
      requires Valid()
      modifies this`ticks
      ensures Valid() && Abs() == old(Abs()).(ticks := n)
    {
      ticks := n;
    }

    method Print(text: string)
      requires Valid()
      modifies this`screen
      ensures Valid() && Abs() == Say(old(Abs()), text)
    {
      screen := screen + [Text(text)];
    }

    method PowerSetMode(m: Mode)
      requires Valid()
      modifies this`mode, this`screen
      ensures Valid() && Abs() == SetMode(old(Abs()), m)
    {
      mode := m;
      Print("Power Mode Switched to: ");
      Print(ModeName(mode));
      Print("\n");
    }

    method PowerPrintStats()
      requires Valid()
      modifies this`screen
      ensures Valid() && Abs() == PrintStats(old(Abs()))
    {
      var saved := 0;
      if total > 0 && total >= wakeups {
        saved := (total - wakeups) * 100 / total;
      }
      screen := screen + [Stats(mode, wakeups, coalesced, delayed, flushed, total, saved)];
    }

    method FlushIoBuffer()
      requires Valid()
      modifies this`wakeups, this`flushed, this`ioCount
      ensures Valid() && Abs() == FlushIo(old(Abs())) && ioCount == 0
    {
      if ioCount == 0 {
        return;
      }
      wakeups := wakeups + 1;
      flushed := flushed + ioCount;
      ioCount := 0;
    }

    method BufferByte(data: char)
      requires Valid()
      modifies this`ioCount, this`delayed, ioBuffer
      ensures Valid()
      ensures var s := old(Abs());
              Abs() == if |s.io| < IO_BUFFER_SIZE then s.(io := s.io + [data], delayed := s.delayed + 1) else s
    {
      if ioCount < IO_BUFFER_SIZE {
        ghost var before := ioBuffer[..ioCount];
        ioBuffer[ioCount] := data;
        ioCount := ioCount + 1;
        delayed := delayed + 1;
        assert ioBuffer[..ioCount] == before + [data];
      }
    }

    method PowerIoWrite(data: char)
      requires Valid()
      modifies this`wakeups, this`flushed, this`ioCount, this`delayed, this`total, this`writes, ioBuffer
      ensures Valid() && Abs() == IoWrite(old(Abs()), data)
    {
      total := total + 1;
      writes := writes + 1;
      var batchLimit := IoBatch(mode);
      BufferByte(data);
      if ioCount >= batchLimit {
        FlushIoBuffer();
      }
    }

    method Simulate()
      requires Valid()
      modifies this`wakeups, this`flushed, this`ioCount, this`delayed, this`total, this`writes, ioBuffer
      ensures Valid() && Abs() == IoWrites(old(Abs()), 'X', SIM_WRITES)
    {
      for i := 0 to SIM_WRITES
        invariant Valid() && Abs() == IoWrites(old(Abs()), 'X', i)
      {
        PowerIoWrite('X');
      }
    }

    /** strcmp(cmdbuf, word) == 0, for a command word of the shell. */
    method Typed(word: string) returns (same: bool)
      requires Valid() && cmdbuf[cmdlen] == '\0' && forall k :: 0 <= k < |word| ==> word[k] != '\0'
      ensures same <==> CString(cmdbuf[..cmdlen]) == word
    {
      assert cmdbuf[..][cmdlen] == '\0';
      var terminated := word + ['\0'];
      assert terminated[|word|] == '\0';
      var r := StrCmp(cmdbuf[..], terminated);
      assert cmdbuf[..] == cmdbuf[..cmdlen] + ['\0'] + cmdbuf[cmdlen + 1..];
      CStringPrefix(cmdbuf[..cmdlen], cmdbuf[cmdlen + 1..]);
      CStringIs(terminated, |word|);
      assert terminated[..|word|] == word;
      same := r == 0;
    }

    /** The command dispatch of execute_command, for a non-empty line. */
    method Dispatch()
      requires Valid() && cmdbuf[cmdlen] == '\0'
      modifies this`mode, this`screen, this`wakeups, this`flushed, this`ioCount, this`delayed, this`total,
               this`writes, ioBuffer
      ensures Valid() && Abs() == Command(old(Abs()), CString(old(cmdbuf[..cmdlen])))
    {
      var help := Typed("help");
      var perf := Typed("perf");
      var bal := Typed("bal");
      var power := Typed("power");
      var stats := Typed("stats");
      var sim := Typed("sim");
      var clear := Typed("clear");
      if help {
        screen := screen + seq(|HELP_TEXT|, i requires 0 <= i < |HELP_TEXT| => Text(HELP_TEXT[i]));
      } else if perf {
        PowerSetMode(Performance);
      } else if bal {
        PowerSetMode(Balanced);
      } else if power {
        PowerSetMode(EnergySaver);
      } else if stats {
        PowerPrintStats();
      } else if sim {
        Print("Simulating 100 small I/O writes...\n");
        Simulate();
        Print("Done. Here are the immediate stats:\n");
        PowerPrintStats();
      } else if clear {
        screen := screen + [Cleared];
      } else {
        Print("Unknown command: ");
        Print(CString(cmdbuf[..cmdlen]));
        Print("\n");
      }
    }

    method ExecuteCommand()
      requires Valid()
      modifies this`mode, this`screen, this`wakeups, this`flushed, this`ioCount, this`delayed, this`total,
               this`writes, this`cmdlen, ioBuffer, cmdbuf
      ensures Valid() && Abs() == Execute(old(Abs()))
    {
      ghost var line := cmdbuf[..cmdlen];
      cmdbuf[cmdlen] := '\0';
      assert cmdbuf[..cmdlen] == line;
      Print("\n");
      if cmdlen != 0 {
        Dispatch();
      }
      cmdlen := 0;
      Print("YieldOS> ");
    }

    method ShellHandleKey(key: char)
      requires Valid()
      modifies this`mode, this`screen, this`wakeups, this`flushed, this`ioCount, this`delayed, this`total,
               this`writes, this`cmdlen, ioBuffer, cmdbuf
      ensures Valid() && Abs() == HandleKey(old(Abs()), key)
    {
      if key == '\n' || key == '\r' {
        ExecuteCommand();
      } else if key == BACKSPACE {
        if cmdlen > 0 {
          cmdlen := cmdlen - 1;
          assert cmdbuf[..cmdlen] == old(cmdbuf[..cmdlen])[..cmdlen];
        }
      } else if cmdlen < LINE_MAX {
        ghost var before := cmdbuf[..cmdlen];
        cmdbuf[cmdlen] := key;
        cmdlen := cmdlen + 1;
        assert cmdbuf[..cmdlen] == before + [key];
      }
    }

    method DeliverKey(key: char)
      requires Valid()
      modifies this`mode, this`screen, this`wakeups, this`flushed, this`ioCount, this`delayed, this`total,
               this`writes, this`cmdlen, this`delivered, ioBuffer, cmdbuf
      ensures Valid() && Abs() == Deliver(old(Abs()), key)
    {
      screen := screen + [Echo(key)];
      delivered := delivered + [key];
      ShellHandleKey(key);
    }

    /** keyboard_queue[tail++], wrapped. */
    method TakeKey() returns (key: char)
      requires Valid() && Abs().queue != []
      modifies this`tail
      ensures Valid() && key == old(Abs()).queue[0]
      ensures Abs() == old(Abs()).(queue := old(Abs()).queue[1..])
    {
      PendingFull(keyboardQueue[..], tail, head);
      PendingPop(keyboardQueue[..], tail, head);
      key := keyboardQueue[tail];
      tail := (tail + 1) % RING_SIZE;
    }

    /** The drain loop re-enters the shell, which may change the mode under it. */
    method FlushKeyboardQueue()
      requires Valid()
      modifies this, ioBuffer, cmdbuf
      ensures Valid() && Abs() == FlushKeyboard(old(Abs())) && head == tail
    {
      PendingFull(keyboardQueue[..], tail, head);
      if head == tail {
        return;
      }
      CountWakeup();
      ghost var start := Abs();
      while tail != head
        invariant Valid() && Drain(Abs()) == Drain(start)
        decreases |Abs().queue|
      {
        PendingFull(keyboardQueue[..], tail, head);
        DrainStep(Abs());
        var key := TakeKey();
        DeliverKey(key);
      }
      PendingFull(keyboardQueue[..], tail, head);
    }

    /** The queueing branch of power_keyboard_hook. */
    method QueueKey(key: char)
      requires Valid()
      modifies this`head, this`coalesced, this`dropped, keyboardQueue
      ensures Valid() && Abs() == Enqueue(old(Abs()), key)
    {
      ghost var before := keyboardQueue[..];
      PendingFull(before, tail, head);
      var nextHead := (head + 1) % RING_SIZE;
      if nextHead != tail {
        PendingPush(before, tail, head, key);
        keyboardQueue[head] := key;
        assert keyboardQueue[..] == before[head := key];
        head := nextHead;
        coalesced := coalesced + 1;
      } else {
        dropped := dropped + 1;
      }
    }

    /** The immediate branch of power_keyboard_hook. */
    method DispatchNow(key: char)
      requires Valid()
      modifies this, ioBuffer, cmdbuf
      ensures Valid() && Abs() == DeliverNow(old(Abs()), key)
    {
      DeliverKey(key);
      CountWakeup();
    }

    method PowerKeyboardHook(key: char)
      requires Valid()
      modifies this, keyboardQueue, ioBuffer, cmdbuf
      ensures Valid() && Abs() == KeyHook(old(Abs()), key)
    {
      CountEvent();
      if mode == Performance {
        DispatchNow(key);
      } else {
        QueueKey(key);
      }
    }

    lemma TickNumbers(s: State)
      ensures PowerRuns.Inv(s) && s.ticks + 1 >= FlushTicks(s.mode) ==> TickHook(s).flushed == TickHook(s).delayed
    {
      if PowerRuns.Inv(s) { PowerCounts.TickByNumber(s); }
    }

    method PowerTickHook()
      requires Valid()
      modifies this, ioBuffer, cmdbuf
      ensures Valid() && Abs() == TickHook(old(Abs()))
      ensures old(ticks) + 1 >= (if old(mode) == Performance then 1 else if old(mode) == Balanced then 10 else 50) ==>
                ticks == 0 && head == tail && ioCount == 0 && (PowerRuns.Inv(old(Abs())) ==> flushed == delayed)
      ensures old(ticks) + 1 < (if old(mode) == Performance then 1 else if old(mode) == Balanced then 10 else 50) ==>
                ticks == old(ticks) + 1 && head == old(head) && tail == old(tail) && ioCount == old(ioCount)
    {
      TickNumbers(Abs());
      SetTicks(ticks + 1);
      var flushLimit := FlushTicks(mode);
      if ticks >= flushLimit {
        FlushKeyboardQueue();
        FlushIoBuffer();
        SetTicks(0);
      }
    }
  }
}
