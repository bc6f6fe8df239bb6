/**
 The receive queue of MDK's virtio_net.c as a protocol between driver and device: sixteen buffers
 whose ids travel through the available ring to the device, through the used ring back to the
 driver, and round again (VIRTIO 1.1, sections 2.6.6 and 2.6.8). Here the four ring positions are
 counters that never wrap; VirtioRx.dfy holds the 16-bit fields.
 */
module VirtioSpec {

  type Byte = n: nat | n < 256

  const QUEUE := 16
  const BUFFER := 1536
  const NET_HEADER := 10

  /**
   made / taken: entries published by the driver / consumed by the device on the available ring;
   done / read: the same for the used ring, the other way round. The id queues say who owns what:
   availQ is offered, inFlight held by the device, staged written to the used ring but not yet
   counted, unread counted but not yet consumed, held consumed but not yet offered again.
   `completed` is history: the bytes of every frame the device has completed, in used order.
   */
  datatype Rx = Rx(
    availRing: seq<nat>, usedId: seq<nat>, usedLen: seq<nat>, buffers: seq<Byte>,
    made: nat, taken: nat, done: nat, read: nat,
    availQ: seq<nat>, inFlight: seq<nat>, staged: seq<nat>, unread: seq<nat>, held: seq<nat>,
    lens: seq<nat>, offered: bool, completed: seq<seq<Byte>>)

  /** Slots from, from+1, ... of a ring of sixteen hold the queue. */
  ghost predicate RingHolds(ring: seq<nat>, from: nat, q: seq<nat>) {
    && |ring| == QUEUE && |q| <= QUEUE
    && forall k :: 0 <= k < |q| ==> ring[(from + k) % QUEUE] == q[k]
  }

  /** How often an id occurs in a queue. */
  ghost function Times(q: seq<nat>, id: nat): nat {
    multiset(q)[id]
  }

  ghost function Copies(s: Rx, id: nat): nat {
    Times(s.availQ, id) + Times(s.inFlight, id) + Times(s.staged, id) + Times(s.unread, id) + Times(s.held, id)
  }

  /** Each of the sixteen ids is in exactly one place, exactly once, and there are no others. */
  ghost predicate Partitioned(s: Rx) {
    forall id: nat {:trigger Copies(s, id)} :: Copies(s, id) == if id < QUEUE then 1 else 0
  }

  /** The first `len` bytes of buffer `id`. */
  function Frame(buffers: seq<Byte>, id: nat, len: nat): seq<Byte>
    requires id < QUEUE && len <= BUFFER && |buffers| == QUEUE * BUFFER
  {
    buffers[id * BUFFER..id * BUFFER + len]
  }

  /** The k-th unread buffer still holds the frame the device completed into it. */
  ghost predicate FrameKept(s: Rx, k: nat) {
    k < |s.unread| && k < |s.lens| && s.read + k < |s.completed| && |s.buffers| == QUEUE * BUFFER ==>
      s.unread[k] < QUEUE && s.lens[k] <= BUFFER && s.completed[s.read + k] == Frame(s.buffers, s.unread[k], s.lens[k])
  }

  ghost predicate Counted(s: Rx) {
    && s.taken + |s.availQ| == s.made && s.read + |s.unread| == s.done
    && s.done + |s.staged| + |s.inFlight| == s.taken
    && s.made + |s.held| == s.read + QUEUE
    && |s.staged| <= 1 && |s.held| <= 1 && |s.lens| == |s.unread| + |s.staged|
    && |s.completed| == s.done && |s.buffers| == QUEUE * BUFFER
  }

  ghost predicate RingsAgree(s: Rx) {
    && RingHolds(s.availRing, s.taken, s.availQ)
    && RingHolds(s.usedId, s.read, s.unread + s.staged)
    && RingHolds(s.usedLen, s.read, s.lens)
    && (forall k :: 0 <= k < |s.lens| ==> s.lens[k] <= BUFFER)
    && (s.offered ==> s.held != [] && s.availRing[s.made % QUEUE] == s.held[0])
  }

  ghost predicate FramesKept(s: Rx) {
    forall k: nat {:trigger FrameKept(s, k)} :: FrameKept(s, k)
  }

  ghost predicate Ok(s: Rx) {
    Counted(s) && Partitioned(s) && RingsAgree(s) && FramesKept(s)
  }

  function Ids(): (q: seq<nat>)
    ensures |q| == QUEUE && forall k :: 0 <= k < QUEUE ==> q[k] == k
  {
    seq(QUEUE, k => k)
  }

  /** virtio_net_init: all sixteen buffers offered in order. */
  function Initial(buffers: seq<Byte>, used: seq<nat>, lens: seq<nat>): Rx {
    Rx(Ids(), used, lens, buffers, QUEUE, 0, 0, 0, Ids(), [], [], [], [], [], false, [])
  }

  lemma InitialOk(buffers: seq<Byte>, used: seq<nat>, lens: seq<nat>)
    requires |buffers| == QUEUE * BUFFER && |used| == QUEUE && |lens| == QUEUE
    ensures Ok(Initial(buffers, used, lens))
  {
    var s := Initial(buffers, used, lens);
    forall id: nat ensures Copies(s, id) == if id < QUEUE then 1 else 0 { CountingUp(16, s.availQ, id); }
    assert s.unread + s.staged == [];
    forall k: nat ensures FrameKept(s, k) {}
  }

  lemma {:induction false} CountingUp(n: nat, q: seq<nat>, id: nat)
    requires |q| == n && forall k :: 0 <= k < n ==> q[k] == k
    ensures Times(q, id) == if id < n then 1 else 0
    decreases n
  {
    if n > 0 {
      CountingUp(n - 1, q[..n - 1], id);
      assert q == q[..n - 1] + [n - 1];
    }
  }

  // ------------------------------------------------------------------- ring lemmas

  lemma SlotsDiffer(a: nat, b: nat)
    requires a < b < a + QUEUE
    ensures a % QUEUE != b % QUEUE
  {}

  lemma RingPush(ring: seq<nat>, from: nat, q: seq<nat>, v: nat)
    requires RingHolds(ring, from, q) && |q| < QUEUE
    ensures RingHolds(ring[(from + |q|) % QUEUE := v], from, q + [v])
  {
    var after := ring[(from + |q|) % QUEUE := v];
    forall k | 0 <= k < |q| ensures after[(from + k) % QUEUE] == q[k] { SlotsDiffer(from + k, from + |q|); }
  }

  /** A store to the slot behind the queue is not seen by the queue. */
  lemma RingBehind(ring: seq<nat>, from: nat, q: seq<nat>, v: nat)
    requires RingHolds(ring, from, q) && |q| < QUEUE
    ensures RingHolds(ring[(from + |q|) % QUEUE := v], from, q)
  {
    var after := ring[(from + |q|) % QUEUE := v];
    forall k | 0 <= k < |q| ensures after[(from + k) % QUEUE] == q[k] { SlotsDiffer(from + k, from + |q|); }
  }

  lemma RingPop(ring: seq<nat>, from: nat, q: seq<nat>)
    requires RingHolds(ring, from, q) && q != []
    ensures ring[from % QUEUE] == q[0] && RingHolds(ring, from + 1, q[1..])
  {
    assert ring[(from + 0) % QUEUE] == q[0];
    forall k | 0 <= k < |q[1..]| ensures ring[(from + 1 + k) % QUEUE] == q[1..][k] {
      assert ring[(from + (k + 1)) % QUEUE] == q[k + 1];
      assert from + 1 + k == from + (k + 1);
    }
  }

  /** Sixteen places for sixteen ids. */
  lemma Sixteen(s: Rx)
    requires Counted(s)
    ensures |s.availQ| + |s.inFlight| + |s.staged| + |s.unread| + |s.held| == QUEUE
  {}

  lemma IdInRange(s: Rx, id: nat)
    requires Partitioned(s)
    requires id in s.availQ || id in s.inFlight || id in s.staged || id in s.unread || id in s.held
    ensures id < QUEUE
  {
    assert Copies(s, id) > 0;
  }

  /** A buffer the device works on is not one the driver may read. */
  lemma DeviceAndUnreadApart(s: Rx, id: nat)
    requires Partitioned(s) && id in s.inFlight
    ensures id !in s.unread && id !in s.held && id !in s.staged && id !in s.availQ
  {
    assert Copies(s, id) <= 1 && Times(s.inFlight, id) >= 1;
  }

  /** Occurrences add up over concatenation. */
  lemma TimesJoin(a: seq<nat>, b: seq<nat>, id: nat)
    ensures Times(a + b, id) == Times(a, id) + Times(b, id)
  {}

  lemma TimesHead(q: seq<nat>, id: nat)
    requires q != []
    ensures Times(q, id) == Times([q[0]], id) + Times(q[1..], id)
  {
    assert q == [q[0]] + q[1..];
  }

  // ------------------------------------------------------------------- device steps

  /** The device consumes the next available entry. */
  function Take(s: Rx): Rx
    requires s.availQ != []
  {
    s.(taken := s.taken + 1, inFlight := s.inFlight + [s.availQ[0]], availQ := s.availQ[1..])
  }

  /** The device stores one byte into a buffer it holds. */
  function WriteByte(s: Rx, i: nat, offset: nat, b: Byte): Rx
    requires i < |s.inFlight| && s.inFlight[i] < QUEUE && offset < BUFFER && |s.buffers| == QUEUE * BUFFER
  {
    s.(buffers := s.buffers[s.inFlight[i] * BUFFER + offset := b])
  }

  function Without(q: seq<nat>, i: nat): seq<nat>
    requires i < |q|
  {
    q[..i] + q[i + 1..]
  }

  /** The device writes the next used element for any buffer it holds; it need not keep their order. */
  function Stage(s: Rx, i: nat, len: nat): Rx
    requires i < |s.inFlight| && |s.usedId| == QUEUE && |s.usedLen| == QUEUE
  {
    var id := s.inFlight[i];
    s.(usedId := s.usedId[s.done % QUEUE := id], usedLen := s.usedLen[s.done % QUEUE := len],
       inFlight := Without(s.inFlight, i), staged := [id], lens := s.lens + [len])
  }

  /** The device counts the staged element: the frame is complete. */
  function Complete(s: Rx): Rx
    requires s.staged != [] && s.staged[0] < QUEUE && s.lens != [] && s.lens[|s.lens| - 1] <= BUFFER
    requires |s.buffers| == QUEUE * BUFFER
  {
    s.(done := s.done + 1, unread := s.unread + [s.staged[0]], staged := [],
       completed := s.completed + [Frame(s.buffers, s.staged[0], s.lens[|s.lens| - 1])])
  }

  lemma TakeOk(s: Rx)
    requires Ok(s) && s.availQ != []
    ensures s.availRing[s.taken % QUEUE] == s.availQ[0] && Ok(Take(s))
  {
    var t := Take(s);
    RingPop(s.availRing, s.taken, s.availQ);
    forall id: nat ensures Copies(t, id) == Copies(s, id) {
      TimesHead(s.availQ, id);
      TimesJoin(s.inFlight, [s.availQ[0]], id);
    }
    forall k: nat ensures FrameKept(t, k) { assert FrameKept(s, k); }
  }

  lemma WriteByteOk(s: Rx, i: nat, offset: nat, b: Byte)
    requires Ok(s) && i < |s.inFlight| && offset < BUFFER
    ensures s.inFlight[i] < QUEUE && Ok(WriteByte(s, i, offset, b))
  {
    IdInRange(s, s.inFlight[i]);
    DeviceAndUnreadApart(s, s.inFlight[i]);
    var t := WriteByte(s, i, offset, b);
    forall id: nat ensures Copies(t, id) == Copies(s, id) {}
    forall k: nat ensures FrameKept(t, k) {
      assert FrameKept(s, k);
      if k < |s.unread| && k < |s.lens| && s.read + k < |s.completed| {
        assert s.unread[k] != s.inFlight[i];
        FramesApart(s.buffers, s.inFlight[i], offset, b, s.unread[k], s.lens[k]);
      }
    }
  }

  lemma FramesApart(buffers: seq<Byte>, id: nat, offset: nat, b: Byte, other: nat, len: nat)
    requires |buffers| == QUEUE * BUFFER && id < QUEUE && other < QUEUE && id != other
    requires offset < BUFFER && len <= BUFFER
    ensures Frame(buffers[id * BUFFER + offset := b], other, len) == Frame(buffers, other, len)
  {}

  lemma TimesWithout(q: seq<nat>, i: nat, x: nat)
    requires i < |q|
    ensures Times(q, x) == Times(Without(q, i), x) + Times([q[i]], x)
  {
    assert q == q[..i] + ([q[i]] + q[i + 1..]);
    TimesJoin(q[..i], [q[i]] + q[i + 1..], x);
    TimesJoin([q[i]], q[i + 1..], x);
    TimesJoin(q[..i], q[i + 1..], x);
  }

  lemma StageOk(s: Rx, i: nat, len: nat)
    requires Ok(s) && i < |s.inFlight| && s.staged == [] && len <= BUFFER
    ensures Ok(Stage(s, i, len))
  {
    var id, t := s.inFlight[i], Stage(s, i, len);
    Sixteen(s);
    assert s.unread + s.staged == s.unread;
    RingPush(s.usedId, s.read, s.unread, id);
    RingPush(s.usedLen, s.read, s.lens, len);
    forall x: nat ensures Copies(t, x) == Copies(s, x) { TimesWithout(s.inFlight, i, x); }
    forall k: nat ensures FrameKept(t, k) { assert FrameKept(s, k); }
  }

  lemma CompleteOk(s: Rx)
    requires Ok(s) && s.staged != []
    ensures s.staged[0] < QUEUE && Ok(Complete(s))
  {
    IdInRange(s, s.staged[0]);
    var t := Complete(s);
    assert s.staged == [s.staged[0]];
    assert t.unread + t.staged == s.unread + s.staged;
    forall id: nat ensures Copies(t, id) == Copies(s, id) { TimesJoin(s.unread, s.staged, id); }
    forall k: nat ensures FrameKept(t, k) { assert FrameKept(s, k); }
  }

  // ------------------------------------------------------------------- driver steps

  /** last_used_idx++ */
  function Consume(s: Rx): Rx
    requires s.unread != [] && s.lens != []
  {
    s.(read := s.read + 1, held := [s.unread[0]], unread := s.unread[1..], lens := s.lens[1..])
  }

  /** rx_avail->ring[idx % 16] = id */
  function Offer(s: Rx): Rx
    requires s.held != [] && |s.availRing| == QUEUE
  {
    s.(availRing := s.availRing[s.made % QUEUE := s.held[0]], offered := true)
  }

  /** rx_avail->idx++ */
  function Publish(s: Rx): Rx
    requires s.held != []
  {
    s.(made := s.made + 1, availQ := s.availQ + [s.held[0]], held := [], offered := false)
  }

  /** What the driver finds in the used ring is the oldest completed frame it has not returned. */
  lemma NextFrame(s: Rx)
    requires Ok(s) && s.unread != []
    ensures s.usedId[s.read % QUEUE] == s.unread[0] && s.usedLen[s.read % QUEUE] == s.lens[0]
    ensures s.read < |s.completed| && s.unread[0] < QUEUE && s.lens[0] <= BUFFER
    ensures s.completed[s.read] == Frame(s.buffers, s.unread[0], s.lens[0])
  {
    IdInRange(s, s.unread[0]);
    RingPop(s.usedId, s.read, s.unread + s.staged);
    RingPop(s.usedLen, s.read, s.lens);
    assert FrameKept(s, 0);
  }

  lemma ConsumeOk(s: Rx)
    requires Ok(s) && s.unread != [] && s.held == []
    ensures Ok(Consume(s))
  {
    var t := Consume(s);
    RingPop(s.usedId, s.read, s.unread + s.staged);
    RingPop(s.usedLen, s.read, s.lens);
    assert (s.unread + s.staged)[1..] == t.unread + t.staged;
    forall id: nat ensures Copies(t, id) == Copies(s, id) { TimesHead(s.unread, id); }
    forall k: nat ensures FrameKept(t, k) { assert FrameKept(s, k + 1); }
  }

  lemma OfferOk(s: Rx)
    requires Ok(s) && s.held != []
    ensures Ok(Offer(s))
  {
    Sixteen(s);
    RingBehind(s.availRing, s.taken, s.availQ, s.held[0]);
    var t := Offer(s);
    forall id: nat ensures Copies(t, id) == Copies(s, id) {}
    forall k: nat ensures FrameKept(t, k) { assert FrameKept(s, k); }
  }

  lemma PublishOk(s: Rx)
    requires Ok(s) && s.offered
    ensures Ok(Publish(s))
  {
    Sixteen(s);
    var t := Publish(s);
    assert s.held == [s.held[0]];
    forall k | 0 <= k < |t.availQ| ensures t.availRing[(t.taken + k) % QUEUE] == t.availQ[k] {}
    forall id: nat ensures Copies(t, id) == Copies(s, id) { TimesJoin(s.availQ, s.held, id); }
    forall k: nat ensures FrameKept(t, k) { assert FrameKept(s, k); }
  }

  // ------------------------------------------------------------------------- runs

  datatype Move =
    | DeviceTakes
    | DeviceWrites(i: nat, offset: nat, b: Byte)
    | DeviceStages(i: nat, len: nat)
    | DeviceCompletes
    | DriverConsumes
    | DriverOffers
    | DriverPublishes

  /** What each party may do, and when: the device as VIRTIO 1.1 demands, the driver as its code runs. */
  ghost predicate Enabled(s: Rx, m: Move) {
    match m
    case DeviceTakes => s.availQ != []
    case DeviceWrites(i, offset, _) => i < |s.inFlight| && offset < BUFFER
    case DeviceStages(i, len) => i < |s.inFlight| && s.staged == [] && len <= BUFFER
    case DeviceCompletes => s.staged != []
    case DriverConsumes => s.unread != [] && s.held == []
    case DriverOffers => s.held != []
    case DriverPublishes => s.offered
  }

  ghost function Make(s: Rx, m: Move): Rx
    requires Ok(s) && Enabled(s, m)
  {
    match m
    case DeviceTakes => Take(s)
    case DeviceWrites(i, offset, b) => WriteByteOk(s, i, offset, b); WriteByte(s, i, offset, b)
    case DeviceStages(i, len) => Stage(s, i, len)
    case DeviceCompletes => CompleteOk(s); Complete(s)
    case DriverConsumes => Consume(s)
    case DriverOffers => Offer(s)
    case DriverPublishes => Publish(s)
  }

  lemma MakeOk(s: Rx, m: Move)
    requires Ok(s) && Enabled(s, m)
    ensures Ok(Make(s, m)) && s.completed <= Make(s, m).completed
  {
    match m
    case DeviceTakes => TakeOk(s);
    case DeviceWrites(i, offset, b) => WriteByteOk(s, i, offset, b);
    case DeviceStages(i, len) => StageOk(s, i, len);
    case DeviceCompletes => CompleteOk(s);
    case DriverConsumes => ConsumeOk(s);
    case DriverOffers => OfferOk(s);
    case DriverPublishes => PublishOk(s);
  }

  ghost predicate Possible(s: Rx, moves: seq<Move>)
    requires Ok(s)
    decreases |moves|
  {
    moves == [] || (Enabled(s, moves[0]) && (MakeOk(s, moves[0]); Possible(Make(s, moves[0]), moves[1..])))
  }

  ghost function Play(s: Rx, moves: seq<Move>): Rx
    requires Ok(s) && Possible(s, moves)
    decreases |moves|
  {
    if moves == [] then s else (MakeOk(s, moves[0]); Play(Make(s, moves[0]), moves[1..]))
  }

  /** Under any interleaving of the two parties every id stays in exactly one place. */
  lemma {:induction false} OwnershipHolds(s: Rx, moves: seq<Move>)
    requires Ok(s) && Possible(s, moves)
    ensures Ok(Play(s, moves)) && s.completed <= Play(s, moves).completed
    decreases |moves|
  {
    if moves != [] {
      MakeOk(s, moves[0]);
      OwnershipHolds(Make(s, moves[0]), moves[1..]);
    }
  }

  /** While the driver holds nothing, exactly sixteen entries separate the two indices, 16-bit wrap included. */
  lemma IndicesSixteenApart(s: Rx)
    requires Ok(s)
    ensures s.held == [] <==> s.made % 0x1_0000 == (s.read + QUEUE) % 0x1_0000
  {
    if s.held != [] { assert s.made + 1 == s.read + QUEUE; }
  }
}
