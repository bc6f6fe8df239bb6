/**
 The event trace of REPLAY-OS (trace.c) and its reader (replay.c). The buffer is modelled as the
 bytes it is made of, so that the disk code can move it in sectors; an event is 24 of them.
 */
module TraceRing {
  import opened Options

  type Byte = n: nat | n < 256

  const MAX_EVENTS := 1000
  const EVENT_SIZE := 24

  // ------------------------------------------------------------ little-endian words

  function Pow256(k: nat): nat {
    if k == 0 then 1 else 256 * Pow256(k - 1)
  }

  function ToBytes(n: nat, k: nat): (b: seq<Byte>)
    ensures |b| == k
  {
    if k == 0 then [] else [n % 256] + ToBytes(n / 256, k - 1)
  }

  function FromBytes(b: seq<Byte>): nat {
    if b == [] then 0 else b[0] + 256 * FromBytes(b[1..])
  }

  /** Byte j of a stored number is its j-th digit in base 256, the lowest first. */
  lemma {:induction false} BytesAreDigits(n: nat, k: nat, j: nat)
    requires j < k
    ensures ToBytes(n, k)[j] == Shifted(n, j) % 256
    decreases k
  {
    if j > 0 { BytesAreDigits(n / 256, k - 1, j - 1); }
  }

  /** n shifted right by j bytes. */
  function Shifted(n: nat, j: nat): nat {
    if j == 0 then n else Shifted(n / 256, j - 1)
  }

  lemma {:induction false} BytesRoundTrip(n: nat, k: nat)
    requires n < Pow256(k)
    ensures FromBytes(ToBytes(n, k)) == n
  {
    if k > 0 {
      BytesRoundTrip(n / 256, k - 1);
      assert ToBytes(n, k)[1..] == ToBytes(n / 256, k - 1);
    }
  }

  /** What trace_record stores of an event; the pid field of the C struct is never written. */
  datatype Record = Record(kind: nat, tick: nat, payload: nat)

  predicate Storable(r: Record) {
    r.kind < Pow256(4) && r.tick < Pow256(8) && r.payload < Pow256(8)
  }

  /** The record held in the 24 bytes at `at`: type, (pid), tick, payload. */
  function RecordAt(bytes: seq<Byte>, at: nat): Record
    requires at + EVENT_SIZE <= |bytes|
  {
    Record(FromBytes(bytes[at..at + 4]), FromBytes(bytes[at + 8..at + 16]), FromBytes(bytes[at + 16..at + 24]))
  }

  /** The bytes after storing r at `at`; bytes at + 4 .. at + 7 keep their values. */
  function Stored(bytes: seq<Byte>, at: nat, r: Record): (s: seq<Byte>)
    requires at + EVENT_SIZE <= |bytes|
    ensures |s| == |bytes|
  {
    var one := Overwrite(bytes, at, ToBytes(r.kind, 4));
    var two := Overwrite(one, at + 8, ToBytes(r.tick, 8));
    Overwrite(two, at + 16, ToBytes(r.payload, 8))
  }

  /** `bytes` with `part` laid over it at `at`. */
  function Overwrite(bytes: seq<Byte>, at: nat, part: seq<Byte>): (s: seq<Byte>)
    requires at + |part| <= |bytes|
    ensures |s| == |bytes| && s[at..at + |part|] == part
    ensures forall i :: 0 <= i < |bytes| && !(at <= i < at + |part|) ==> s[i] == bytes[i]
  {
    bytes[..at] + part + bytes[at + |part|..]
  }

  lemma OverwriteElsewhere(bytes: seq<Byte>, at: nat, part: seq<Byte>, lo: nat, hi: nat)
    requires at + |part| <= |bytes| && lo <= hi <= |bytes| && (hi <= at || at + |part| <= lo)
    ensures Overwrite(bytes, at, part)[lo..hi] == bytes[lo..hi]
  {}

  /** trace_event_t byte by byte: type from offset 0, tick from 8, payload from 16, lowest byte first. */
  lemma EventLayout(bytes: seq<Byte>, at: nat, r: Record, j: nat)
    requires at + 24 <= |bytes|
    ensures j < 4 ==> Stored(bytes, at, r)[at + j] == Shifted(r.kind, j) % 256
    ensures 4 <= j < 8 ==> Stored(bytes, at, r)[at + j] == bytes[at + j]
    ensures j < 8 ==> Stored(bytes, at, r)[at + 8 + j] == Shifted(r.tick, j) % 256
    ensures j < 8 ==> Stored(bytes, at, r)[at + 16 + j] == Shifted(r.payload, j) % 256
  {
    if j < 4 { BytesAreDigits(r.kind, 4, j); }
    if j < 8 {
      BytesAreDigits(r.tick, 8, j);
      BytesAreDigits(r.payload, 8, j);
    }
    var one := Overwrite(bytes, at, ToBytes(r.kind, 4));
    var two := Overwrite(one, at + 8, ToBytes(r.tick, 8));
    assert j < 4 ==> one[at..at + 4][j] == one[at + j];
    assert j < 8 ==> two[at + 8..at + 16][j] == two[at + 8 + j];
    assert j < 8 ==> Stored(bytes, at, r)[at + 16..at + 24][j] == Stored(bytes, at, r)[at + 16 + j];
  }

  lemma StoredReads(bytes: seq<Byte>, at: nat, r: Record)
    requires at + EVENT_SIZE <= |bytes| && Storable(r)
    ensures RecordAt(Stored(bytes, at, r), at) == r
  {
    BytesRoundTrip(r.kind, 4);
    BytesRoundTrip(r.tick, 8);
    BytesRoundTrip(r.payload, 8);
    var kind, tick, payload := ToBytes(r.kind, 4), ToBytes(r.tick, 8), ToBytes(r.payload, 8);
    var one := Overwrite(bytes, at, kind);
    var two := Overwrite(one, at + 8, tick);
    OverwriteElsewhere(one, at + 8, tick, at, at + 4);
    OverwriteElsewhere(two, at + 16, payload, at, at + 4);
    OverwriteElsewhere(two, at + 16, payload, at + 8, at + 16);
  }

  lemma StoredElsewhere(bytes: seq<Byte>, at: nat, r: Record, other: nat)
    requires at + EVENT_SIZE <= |bytes| && other + EVENT_SIZE <= |bytes|
    requires other + EVENT_SIZE <= at || at + EVENT_SIZE <= other
    ensures RecordAt(Stored(bytes, at, r), other) == RecordAt(bytes, other)
  {
    StoredSlice(bytes, at, r, other, other + 4);
    StoredSlice(bytes, at, r, other + 8, other + 16);
    StoredSlice(bytes, at, r, other + 16, other + 24);
  }

  lemma StoredSlice(bytes: seq<Byte>, at: nat, r: Record, lo: nat, hi: nat)
    requires at + EVENT_SIZE <= |bytes| && lo <= hi <= |bytes| && (hi <= at || at + EVENT_SIZE <= lo)
    ensures Stored(bytes, at, r)[lo..hi] == bytes[lo..hi]
  {
    var one := Overwrite(bytes, at, ToBytes(r.kind, 4));
    var two := Overwrite(one, at + 8, ToBytes(r.tick, 8));
    OverwriteElsewhere(bytes, at, ToBytes(r.kind, 4), lo, hi);
    OverwriteElsewhere(one, at + 8, ToBytes(r.tick, 8), lo, hi);
    OverwriteElsewhere(two, at + 16, ToBytes(r.payload, 8), lo, hi);
  }

  // --------------------------------------------------------------------- the ring

  function Kept(n: nat): nat {
    if n < MAX_EVENTS then n else MAX_EVENTS
  }

  /** Slot j % 1000 holds the j-th event ever recorded, for each of the last Kept ones. */
  ghost predicate Holds(bytes: seq<Byte>, history: seq<Record>, j: nat)
    requires MAX_EVENTS * EVENT_SIZE <= |bytes|
  {
    |history| - Kept(|history|) <= j < |history| ==> RecordAt(bytes, j % MAX_EVENTS * EVENT_SIZE) == history[j]
  }

  ghost predicate HoldsLast(bytes: seq<Byte>, history: seq<Record>)
    requires MAX_EVENTS * EVENT_SIZE <= |bytes|
  {
    forall j: nat {:trigger Holds(bytes, history, j)} :: Holds(bytes, history, j)
  }

  lemma RecordExtends(bytes: seq<Byte>, history: seq<Record>, r: Record)
    requires MAX_EVENTS * EVENT_SIZE <= |bytes| && HoldsLast(bytes, history) && Storable(r)
    ensures HoldsLast(Stored(bytes, |history| % MAX_EVENTS * EVENT_SIZE, r), history + [r])
  {
    var head := |history| % MAX_EVENTS;
    var after := Stored(bytes, head * EVENT_SIZE, r);
    forall j: nat ensures Holds(after, history + [r], j) {
      if j == |history| {
        StoredReads(bytes, head * EVENT_SIZE, r);
      } else if |history| + 1 - Kept(|history| + 1) <= j < |history| {
        assert Holds(bytes, history, j);
        OtherSlot(|history|, j);
        StoredElsewhere(bytes, head * EVENT_SIZE, r, j % MAX_EVENTS * EVENT_SIZE);
      }
    }
  }

  lemma OtherSlot(n: nat, j: nat)
    requires n + 1 - Kept(n + 1) <= j < n
    ensures j % MAX_EVENTS != n % MAX_EVENTS
  {}

  lemma NextSlot(n: nat)
    ensures (n % MAX_EVENTS + 1) % MAX_EVENTS == (n + 1) % MAX_EVENTS
  {}

  class Trace {
    const mem: array<Byte>      // memory from trace_buffer on; the buffer is its first 24000 bytes
    var head: nat
    var count: nat
    var recording: bool
    ghost var history: seq<Record>

    ghost predicate Valid()
      reads this, mem
    {
      && MAX_EVENTS * EVENT_SIZE <= mem.Length
      && head == |history| % MAX_EVENTS && count == Kept(|history|)
      && HoldsLast(mem[..], history)
    }

    /** trace_init; the buffer itself is not cleared. */
    constructor (memory: array<Byte>)
      requires MAX_EVENTS * EVENT_SIZE <= memory.Length
      ensures Valid() && mem == memory && history == [] && !recording
    {
      mem := memory;
      head, count, recording := 0, 0, false;
      history := [];
      new;
      forall j: nat ensures Holds(mem[..], history, j) {}
    }

    method TraceStart()
      modifies this`recording
      ensures recording
    {
      recording := true;
    }

    method TraceStop()
      modifies this`recording
      ensures !recording
    {
      recording := false;
    }

    /** A multi-byte store, least significant byte first. */
    method Put(at: nat, n: nat, k: nat)
      requires at + k <= mem.Length
      modifies mem
      ensures mem[..] == Overwrite(old(mem[..]), at, ToBytes(n, k))
      decreases k
    {
      ghost var before := mem[..];
      if k > 0 {
        mem[at] := n % 256;
        Put(at + 1, n / 256, k - 1);
        assert before[at := n % 256][..at + 1] == before[..at] + [n % 256];
      }
    }

    /** The three field stores of trace_record. */
    method StoreEvent(at: nat, kind: nat, tick: nat, payload: nat)
      requires at + EVENT_SIZE <= mem.Length
      modifies mem
      ensures mem[..] == Stored(old(mem[..]), at, Record(kind, tick, payload))
    {
      Put(at, kind, 4);
      Put(at + 8, tick, 8);
      Put(at + 16, payload, 8);
    }

    /** trace_record: nothing while stopped; otherwise the event takes the oldest slot. */
    method TraceRecord(kind: nat, tick: nat, payload: nat)
      requires Valid() && Storable(Record(kind, tick, payload))
      modifies this`head, this`count, this`history, mem
      ensures Valid()
      ensures history == if recording then old(history) + [Record(kind, tick, payload)] else old(history)
      ensures mem[..] == if !recording then old(mem[..]) else
                Stored(old(mem[..]), |old(history)| % 1000 * 24, Record(kind, tick, payload))
      ensures head == |history| % 1000 && count == if |history| < 1000 then |history| else 1000
    {
      if !recording {
        return;
      }
      ghost var bytes := mem[..];
      RecordExtends(bytes, history, Record(kind, tick, payload));
      StoreEvent(head * EVENT_SIZE, kind, tick, payload);
      NextSlot(|history|);
      head := (head + 1) % MAX_EVENTS;
      if count < MAX_EVENTS {
        count := count + 1;
      }
      history := history + [Record(kind, tick, payload)];
    }
  }

  lemma ModOf(q: nat, i: nat)
    requires i < MAX_EVENTS
    ensures (MAX_EVENTS * q + i) % MAX_EVENTS == i
  {}

  /** Slot of the k-th oldest kept event: counting from head once the ring is full, else from 0. */
  function OldestPlus(n: nat, k: nat): nat
    requires k < Kept(n)
  {
    if n < MAX_EVENTS then k
    else if n % MAX_EVENTS + k < MAX_EVENTS then n % MAX_EVENTS + k else n % MAX_EVENTS + k - MAX_EVENTS
  }

  lemma OldestPlusSlot(n: nat, k: nat)
    requires k < Kept(n)
    ensures (n - Kept(n) + k) % MAX_EVENTS == OldestPlus(n, k)
  {
    var q := n / MAX_EVENTS;
    if n < MAX_EVENTS {
      ModOf(0, k);
    } else if n % MAX_EVENTS + k < MAX_EVENTS {
      ModOf(q - 1, n % MAX_EVENTS + k);
    } else {
      ModOf(q, n % MAX_EVENTS + k - MAX_EVENTS);
    }
  }

  /** The buffer is a rotation split at head: the slots from head round to head - 1 hold the last events in order. */
  lemma RotationAtHead(t: Trace, k: nat)
    requires t.Valid() && k < t.count
    ensures RecordAt(t.mem[..], OldestPlus(|t.history|, k) * EVENT_SIZE) == t.history[|t.history| - t.count + k]
  {
    OldestPlusSlot(|t.history|, k);
    assert Holds(t.mem[..], t.history, |t.history| - t.count + k);
  }

  // -------------------------------------------------------------------- the reader

  /** The number of the event found in slot i after n recorded events. */
  function InSlot(n: nat, i: nat): int
    requires i < Kept(n)
  {
    if i < n % MAX_EVENTS then n - n % MAX_EVENTS + i else n - n % MAX_EVENTS - MAX_EVENTS + i
  }

  lemma InSlotMod(n: nat, i: nat)
    requires i < Kept(n)
    ensures n - Kept(n) <= InSlot(n, i) < n && InSlot(n, i) % MAX_EVENTS == i
  {
    var q := n / MAX_EVENTS;
    if i < n % MAX_EVENTS { ModOf(q, i); } else { ModOf(q - 1, i); }
  }

  lemma SlotContents(t: Trace, i: nat)
    requires t.Valid() && i < t.count
    ensures var j := InSlot(|t.history|, i);
            0 <= j < |t.history| && RecordAt(t.mem[..], i * EVENT_SIZE) == t.history[j]
  {
    InSlotMod(|t.history|, i);
    assert Holds(t.mem[..], t.history, InSlot(|t.history|, i));
  }

  /** Reading the slots from index 0 is reading in order of time exactly when the ring has not been
      overwritten partway: up to 1000 events, or a whole number of rounds. */
  lemma ChronologicalExactlyWhen(n: nat)
    ensures (forall i, k :: 0 <= i < k < Kept(n) ==> InSlot(n, i) < InSlot(n, k))
            <==> n <= 1000 || n % 1000 == 0
  {
    if n > MAX_EVENTS && n % MAX_EVENTS != 0 {
      assert InSlot(n, n % MAX_EVENTS - 1) > InSlot(n, n % MAX_EVENTS);
    }
  }

  /** replaying and replay_ptr. */
  datatype Reader = Reader(replaying: bool, ptr: nat)

  /** replay_get_next over `count` events: the slot handed out, or null at the end. */
  function GetNext(r: Reader, count: nat): (Reader, Option<nat>) {
    if r.ptr >= count then (Reader(false, r.ptr), None) else (Reader(r.replaying, r.ptr + 1), Some(r.ptr))
  }

  /** The slots handed out by k calls. */
  function Draining(r: Reader, count: nat, k: nat): (Reader, seq<nat>)
    decreases k
  {
    if k == 0 then (r, [])
    else
      var (r1, slot) := GetNext(r, count);
      var (r2, rest) := Draining(r1, count, k - 1);
      (r2, (if slot.Some? then [slot.value] else []) + rest)
  }

  lemma {:induction false} DrainFrom(r: Reader, count: nat, k: nat)
    requires r.ptr <= count
    ensures var (end, slots) := Draining(r, count, k);
            && slots == seq(if r.ptr + k <= count then k else count - r.ptr, i => r.ptr + i)
            && end.ptr == r.ptr + |slots|
            && end.replaying == (r.replaying && r.ptr + k <= count)
    decreases k
  {
    if k > 0 { DrainFrom(GetNext(r, count).0, count, k - 1); }
  }

  /** A replay with nothing recorded meanwhile hands out every kept slot once, in buffer order, and then stops. */
  lemma DrainIsBufferOrder(t: Trace)
    requires t.Valid()
    ensures var (end, slots) := Draining(Reader(true, 0), t.count, t.count + 1);
            && slots == seq(t.count, i => i) && !end.replaying
            && (Draining(Reader(true, 0), t.count, t.count).0.replaying)
  {
    DrainFrom(Reader(true, 0), t.count, t.count + 1);
    DrainFrom(Reader(true, 0), t.count, t.count);
  }

  class Replay {
    var state: Reader

    constructor ()
      ensures state == Reader(false, 0)
    {
      state := Reader(false, 0);
    }

    method ReplayStart()
      modifies this
      ensures state == Reader(true, 0)
    {
      state := Reader(true, 0);
    }

    /**
     replay_get_next. While the ring is intact the slot handed out holds one known event of the
     history, a later one than the call before handed out unless the ring was overwritten partway
     and this slot is the head; null comes exactly after `count` slots and ends the replay.
     */
    method ReplayGetNext(t: Trace) returns (slot: Option<nat>)
      modifies this
      ensures (state, slot) == GetNext(old(state), t.count)
      ensures slot.None? <==> old(state).ptr >= t.count
      ensures slot.None? ==> !state.replaying
      ensures slot.Some? && t.Valid() ==>
        var n, i := |t.history|, slot.value;
        && 0 <= InSlot(n, i) < n && RecordAt(t.mem[..], i * EVENT_SIZE) == t.history[InSlot(n, i)]
        && (i > 0 ==> (InSlot(n, i) == InSlot(n, i - 1) + 1 <==> n <= MAX_EVENTS || i != n % MAX_EVENTS))
    {
      if state.ptr >= t.count {
        state := state.(replaying := false);
        return None;
      }
      if t.Valid() { SlotContents(t, state.ptr); }
      slot := Some(state.ptr);
      state := state.(ptr := state.ptr + 1);
    }
  }
}
