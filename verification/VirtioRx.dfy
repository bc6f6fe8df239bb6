/**
 virtio_net.c, receive side: the two rings and the driver's index as 16-bit fields, the buffers as
 one array, and the driver's statements with the device free to act between any two of them.
 */
module VirtioRx {
  import opened VirtioSpec

  const WRAP := 0x1_0000
  const DEVICE_WRITES := 2

  /** What the device may change while the driver looks on. */
  ghost predicate DeviceOnly(s: Rx, t: Rx) {
    && t.made == s.made && t.read == s.read && t.held == s.held && t.offered == s.offered && t.availRing == s.availRing
    && s.unread <= t.unread && s.completed <= t.completed
  }

  /** Memory from the caller's pointer on after a receive: the frame without its header, the rest as before. */
  ghost predicate Copied(after: seq<Byte>, before: seq<Byte>, frame: seq<Byte>) {
    && |after| == |before| && |frame| - NET_HEADER <= |after|
    && (forall k :: 0 <= k < |frame| - NET_HEADER ==> after[k] == frame[NET_HEADER + k])
    && (forall k :: 0 <= k < |after| && k >= |frame| - NET_HEADER ==> after[k] == before[k])
  }

  /**
   virtio_net_recv does not know how much room the caller has. What lies behind `room` bytes stays
   as it was when the frame fits, and is overwritten with frame bytes when it does not.
   */
  lemma CopyStaysInRoom(after: seq<Byte>, before: seq<Byte>, frame: seq<Byte>, room: nat)
    requires Copied(after, before, frame) && room <= |after|
    ensures |frame| <= 10 + room ==> after[room..] == before[room..]
    ensures |frame| > 10 + room ==>
              after[room..|frame| - 10] == frame[10 + room..]
              && after[|frame| - 10..] == before[|frame| - 10..]
  {}

  /** A frame without its header. */
  function Payload(frame: seq<Byte>): seq<Byte> {
    if |frame| <= 10 then [] else frame[10..]
  }

  lemma PayloadCopied(after: seq<Byte>, frame: seq<Byte>, len: nat)
    requires len == (if |frame| <= NET_HEADER then 0 else |frame| - NET_HEADER) <= |after|
    requires forall k :: 0 <= k < |frame| - NET_HEADER ==> after[k] == frame[NET_HEADER + k]
    ensures after[..len] == Payload(frame)
  {}

  lemma ReadCompleted(s: Rx)
    requires Ok(s)
    ensures s.read <= |s.completed|
  {}

  /** Counters less than 2^16 apart are equal exactly when their 16-bit images are. */
  lemma WrappedEqual(a: nat, b: nat)
    requires a <= b < a + WRAP
    ensures a % WRAP == b % WRAP <==> a == b
  {}

  /** With no buffer in the driver's hands the two published indices are sixteen apart. */
  lemma Between(made: nat, read: nat, held: nat)
    requires made + held == read + QUEUE && held == 0
    ensures made == read + QUEUE && made % WRAP == (read % WRAP + QUEUE) % WRAP
  {}

  lemma WrappedSlot(n: nat)
    ensures n % WRAP % QUEUE == n % QUEUE
  {}

  lemma WrappedNext(n: nat)
    ensures (n % WRAP + 1) % WRAP == (n + 1) % WRAP
  {}

  class Queue {
    const descAddr: array<nat>       // offset of each buffer in `buffers`
    const descLen: array<nat>
    const descFlags: array<nat>
    const availRing: array<nat>
    var availIdx: nat
    const usedId: array<nat>
    const usedLen: array<nat>
    var usedIdx: nat
    const buffers: array<Byte>
    var lastUsedIdx: nat             // static in virtio_net_recv
    var deviceIdx: nat               // the device's own position in the available ring
    var inFlight: seq<nat>           // the device's own list of buffers it works on
    var staged: seq<nat>
    ghost var state: Rx

    ghost predicate DescriptorsOk()
      reads this, descAddr, descLen, descFlags
    {
      && descAddr.Length == QUEUE && descLen.Length == QUEUE && descFlags.Length == QUEUE
      && forall i :: 0 <= i < QUEUE ==>
                       descAddr[i] == i * BUFFER && descLen[i] == BUFFER && descFlags[i] == DEVICE_WRITES
    }

    ghost predicate Distinct()
      reads this
    {
      && descAddr != descLen && descAddr != descFlags && descLen != descFlags
      && availRing != usedId && availRing != usedLen && usedId != usedLen
      && descAddr != availRing && descAddr != usedId && descAddr != usedLen
      && descLen != availRing && descLen != usedId && descLen != usedLen
      && descFlags != availRing && descFlags != usedId && descFlags != usedLen
    }

    ghost predicate Valid()
      reads this, descAddr, descLen, descFlags, availRing, usedId, usedLen, buffers
    {
      && Distinct() && DescriptorsOk() && Ok(state)
      && availRing[..] == state.availRing && usedId[..] == state.usedId && usedLen[..] == state.usedLen
      && buffers[..] == state.buffers
      && availIdx == state.made % WRAP && usedIdx == state.done % WRAP
      && lastUsedIdx == state.read % WRAP && deviceIdx == state.taken % WRAP
      && inFlight == state.inFlight && staged == state.staged
    }

    /** The receive half of virtio_net_init, on zeroed indices; the device starts afterwards. */
    constructor ()
      ensures Valid() && state.made == QUEUE && state.read == 0 && state.completed == [] && state.held == []
      ensures descAddr.Length == descLen.Length == descFlags.Length == availRing.Length == 16 && availIdx == 16
      ensures forall i :: 0 <= i < 16 ==>
                descAddr[i] == i * 1536 && descLen[i] == 1536 && descFlags[i] == 2 && availRing[i] == i
      ensures fresh(availRing) && fresh(usedId) && fresh(usedLen) && fresh(buffers)
    {
      descAddr := new nat[QUEUE];
      descLen := new nat[QUEUE];
      descFlags := new nat[QUEUE];
      availRing := new nat[QUEUE];
      usedId := new nat[QUEUE];
      usedLen := new nat[QUEUE];
      buffers := new Byte[QUEUE * BUFFER];
      usedIdx, lastUsedIdx, deviceIdx := 0, 0, 0;
      inFlight, staged := [], [];
      new;
      OfferAll();
      availIdx := QUEUE;
      state := Initial(buffers[..], usedId[..], usedLen[..]);
      InitialOk(buffers[..], usedId[..], usedLen[..]);
    }

    /** The loop of virtio_net_init over the sixteen receive buffers. */
    method OfferAll()
      requires descAddr.Length == QUEUE && descLen.Length == QUEUE && descFlags.Length == QUEUE && Distinct()
      requires availRing.Length == QUEUE
      modifies descAddr, descLen, descFlags, availRing
      ensures DescriptorsOk() && availRing[..] == Ids()
    {
      for i := 0 to QUEUE
        modifies descAddr, descLen, descFlags, availRing
        invariant forall k :: 0 <= k < i ==>
                    descAddr[k] == k * BUFFER && descLen[k] == BUFFER && descFlags[k] == DEVICE_WRITES
                    && availRing[k] == k
      {
        descAddr[i] := i * BUFFER;
        descLen[i] := BUFFER;
        descFlags[i] := DEVICE_WRITES;
        availRing[i] := i;
      }
    }

    // ------------------------------------------------------------------ the device

    method DeviceTake()
      requires Valid()
      modifies this`deviceIdx, this`inFlight, this`state
      ensures Valid() && DeviceOnly(old(state), state)
    {
      WrappedEqual(state.taken, state.made);
      if deviceIdx != availIdx {
        TakeOk(state);
        WrappedSlot(state.taken);
        WrappedNext(state.taken);
        inFlight := inFlight + [availRing[deviceIdx % QUEUE]];
        deviceIdx := (deviceIdx + 1) % WRAP;
        state := Take(state);
      }
    }

    method DeviceWrite(i: nat, offset: nat, b: Byte)
      requires Valid()
      modifies this`state, buffers
      ensures Valid() && DeviceOnly(old(state), state)
    {
      if i < |inFlight| && offset < BUFFER {
        WriteByteOk(state, i, offset, b);
        ghost var after := buffers[..][inFlight[i] * BUFFER + offset := b];
        buffers[descAddr[inFlight[i]] + offset] := b;
        assert buffers[..] == after;
        state := WriteByte(state, i, offset, b);
      }
    }

    method DeviceStage(i: nat, len: nat)
      requires Valid()
      modifies this`inFlight, this`staged, this`state, usedId, usedLen
      ensures Valid() && DeviceOnly(old(state), state)
    {
      if i < |inFlight| && staged == [] && len <= BUFFER {
        StageOk(state, i, len);
        WrappedSlot(state.done);
        var id := inFlight[i];
        ghost var ids, lens := usedId[..][usedIdx % QUEUE := id], usedLen[..][usedIdx % QUEUE := len];
        usedId[usedIdx % QUEUE] := id;
        usedLen[usedIdx % QUEUE] := len;
        assert usedId[..] == ids && usedLen[..] == lens;
        inFlight := Without(inFlight, i);
        staged := [id];
        state := Stage(state, i, len);
      }
    }

    method DeviceComplete()
      requires Valid()
      modifies this`usedIdx, this`staged, this`state
      ensures Valid() && DeviceOnly(old(state), state)
    {
      if staged != [] {
        CompleteOk(state);
        WrappedNext(state.done);
        usedIdx := (usedIdx + 1) % WRAP;
        staged := [];
        state := Complete(state);
      }
    }

    /** Any number of device steps, in any order. */
    method DeviceRuns()
      requires Valid()
      modifies this`deviceIdx, this`inFlight, this`staged, this`usedIdx, this`state, buffers, usedId, usedLen
      ensures Valid() && DeviceOnly(old(state), state)
    {
      var steps: nat := *;
      while steps > 0
        invariant Valid() && DeviceOnly(old(state), state)
      {
        var action: nat, i: nat, n: nat, b: Byte := *, *, *, *;
        if action == 0 {
          DeviceTake();
        } else if action == 1 {
          DeviceWrite(i, n, b);
        } else if action == 2 {
          DeviceStage(i, n);
        } else {
          DeviceComplete();
        }
        steps := steps - 1;
      }
    }

    // ------------------------------------------------------------------ the driver

    /** The copy loop: buffer bytes from the header on, while the device works on other buffers. */
    method CopyFrame(id: nat, len: int, buf: array<Byte>)
      requires Valid() && state.unread != [] && id == state.unread[0]
      requires Foreign(buf) && buf.Length >= BUFFER - NET_HEADER
      requires state.read < |state.completed| && len == |state.completed[state.read]| - NET_HEADER
      modifies this`deviceIdx, this`inFlight, this`staged, this`usedIdx, this`state, buffers, usedId, usedLen, buf
      ensures Valid() && DeviceOnly(old(state), state)
      ensures Copied(buf[..], old(buf[..]), old(state).completed[old(state).read])
    {
      ghost var frame := state.completed[state.read];
      NextFrame(state);
      var i := 0;
      while i < len
        invariant 0 <= i && (i <= len || i == 0)
        invariant Valid() && DeviceOnly(old(state), state)
        invariant forall k :: 0 <= k < i ==> buf[k] == frame[NET_HEADER + k]
        invariant forall k :: 0 <= k < buf.Length && k >= i ==> buf[k] == old(buf[k])
      {
        NextFrame(state);
        assert state.completed[state.read] == frame && state.unread[0] == id;
        assert buffers[id * BUFFER + NET_HEADER + i] == Frame(buffers[..], id, |frame|)[NET_HEADER + i];
        buf[i] := buffers[id * BUFFER + NET_HEADER + i];
        i := i + 1;
        DeviceRuns();
      }
    }

    /** The caller's buffer is none of the queue's arrays. */
    ghost predicate Foreign(buf: array<Byte>)
      reads this
    {
      buf != buffers
    }

    /** last_used_idx++ */
    method ConsumeEntry()
      requires Valid() && state.unread != [] && state.held == []
      modifies this`lastUsedIdx, this`state
      ensures Valid() && state == Consume(old(state))
    {
      ConsumeOk(state);
      WrappedNext(state.read);
      lastUsedIdx := (lastUsedIdx + 1) % WRAP;
      state := Consume(state);
    }

    /** rx_avail->ring[rx_avail->idx % 16] = id */
    method OfferEntry(id: nat)
      requires Valid() && state.held == [id]
      modifies this`state, availRing
      ensures Valid() && state == Offer(old(state))
    {
      OfferOk(state);
      WrappedSlot(state.made);
      ghost var after := availRing[..][availIdx % QUEUE := id];
      availRing[availIdx % QUEUE] := id;
      assert availRing[..] == after;
      state := Offer(state);
    }

    /** rx_avail->idx++ */
    method PublishEntry()
      requires Valid() && state.offered
      modifies this`availIdx, this`state
      ensures Valid() && state == Publish(old(state))
    {
      PublishOk(state);
      WrappedNext(state.made);
      availIdx := (availIdx + 1) % WRAP;
      state := Publish(state);
    }

    /** The first half of virtio_net_recv: read the used element, copy the frame. */
    method FetchFrame(buf: array<Byte>) returns (id: nat, len: int)
      requires Valid() && state.unread != [] && Foreign(buf) && buf.Length >= BUFFER - NET_HEADER
      modifies this`deviceIdx, this`inFlight, this`staged, this`usedIdx, this`state, buffers, usedId, usedLen, buf
      ensures Valid() && DeviceOnly(old(state), state) && state.unread != [] && id == state.unread[0]
      ensures old(state).read < |old(state).completed|
      ensures var frame := old(state).completed[old(state).read];
              len == |frame| - NET_HEADER && Copied(buf[..], old(buf[..]), frame)
    {
      WrappedSlot(state.read);
      NextFrame(state);
      id := usedId[lastUsedIdx % QUEUE];
      DeviceRuns();
      NextFrame(state);
      len := usedLen[lastUsedIdx % QUEUE] - NET_HEADER;
      DeviceRuns();
      CopyFrame(id, len, buf);
    }

    /** The second half of virtio_net_recv: the buffer goes back to the device. */
    method Recycle(id: nat)
      requires Valid() && state.unread != [] && state.held == [] && state.unread[0] == id
      modifies this`deviceIdx, this`inFlight, this`staged, this`usedIdx, this`lastUsedIdx, this`availIdx, this`state,
               buffers, usedId, usedLen, availRing
      ensures Valid() && state.held == [] && state.read == old(state).read + 1
      ensures old(state).completed <= state.completed
    {
      ConsumeEntry();
      DeviceRuns();
      OfferEntry(id);
      DeviceRuns();
      PublishEntry();
      DeviceRuns();
    }

    /**
     virtio_net_recv. Returns 0 at once when the device has completed nothing; otherwise hands over
     the oldest completed frame not yet returned, without its 10-byte header, and offers its buffer
     again. The device may act between any two statements. `buf` is memory from the caller's pointer
     on, whatever object the caller has there.
     */
    method VirtioNetRecv(buf: array<Byte>) returns (ret: int)
      requires Valid() && state.held == [] && Foreign(buf) && buf.Length >= BUFFER - NET_HEADER
      modifies this`deviceIdx, this`inFlight, this`staged, this`usedIdx, this`lastUsedIdx, this`availIdx, this`state,
               buffers, usedId, usedLen, availRing, buf
      ensures Valid() && state.held == [] && old(state).completed <= state.completed
      ensures state.made == state.read + QUEUE && availIdx == (lastUsedIdx + 16) % 0x1_0000
      ensures state.read == old(state).read || state.read == old(state).read + 1
      ensures state.read == old(state).read ==>
                ret == 0 && old(state).done == old(state).read && buf[..] == old(buf[..])
      ensures state.read == old(state).read + 1 ==>
                && old(state).read < |state.completed|
                && var frame := state.completed[old(state).read];
                   && ret == |frame| - NET_HEADER && Copied(buf[..], old(buf[..]), frame)
                   && ret == |frame| - 10 && (forall k :: 0 <= k < ret ==> buf[k] == frame[10 + k])
                   && (forall k :: 0 <= k < buf.Length && k >= ret ==> buf[k] == old(buf[k]))
    {
      DeviceRuns();
      WrappedEqual(state.read, state.done);
      if usedIdx == lastUsedIdx {
        Between(state.made, state.read, |state.held|);
        return 0;
      }
      DeviceRuns();
      var id;
      id, ret := FetchFrame(buf);
      Recycle(id);
      Between(state.made, state.read, |state.held|);
    }

    /** What has been handed over so far, and that it is every completed frame up to `read`, in used order. */
    ghost predicate Collected(frames: seq<seq<Byte>>, from: nat)
      reads this`state
    {
      && from + |frames| == state.read <= |state.completed|
      && forall k :: 0 <= k < |frames| ==> frames[k] == Payload(state.completed[from + k])
    }

    /** One call, with what it hands over added to `frames`. */
    method ReceiveOne(buf: array<Byte>, ghost frames: seq<seq<Byte>>, ghost from: nat)
      returns (ghost more: seq<seq<Byte>>)
      requires Valid() && state.held == [] && Foreign(buf) && buf.Length >= BUFFER - NET_HEADER
      requires Collected(frames, from)
      modifies this`deviceIdx, this`inFlight, this`staged, this`usedIdx, this`lastUsedIdx, this`availIdx, this`state,
               buffers, usedId, usedLen, availRing, buf
      ensures Valid() && state.held == [] && Collected(more, from) && frames <= more
    {
      ghost var before := state;
      var ret := VirtioNetRecv(buf);
      more := frames;
      if state.read != before.read {
        ghost var frame := state.completed[before.read];
        more := frames + [buf[..if ret > 0 then ret else 0]];
        PayloadCopied(buf[..], frame, if ret > 0 then ret else 0);
      }
      ReadCompleted(state);
    }

    /**
     Any number of calls with the device running throughout: the frames handed over are exactly the
     completed ones from the first not yet returned on, each once, in used order.
     */
    method ReceiveMany(buf: array<Byte>, calls: nat) returns (ghost frames: seq<seq<Byte>>)
      requires Valid() && state.held == [] && Foreign(buf) && buf.Length >= BUFFER - NET_HEADER
      modifies this`deviceIdx, this`inFlight, this`staged, this`usedIdx, this`lastUsedIdx, this`availIdx, this`state,
               buffers, usedId, usedLen, availRing, buf
      ensures Valid() && state.held == [] && Collected(frames, old(state).read)
    {
      ghost var from := state.read;
      frames := [];
      ReadCompleted(state);
      for i := 0 to calls
        invariant Valid() && state.held == [] && Collected(frames, from)
      {
        frames := ReceiveOne(buf, frames, from);
      }
    }
  }
}
