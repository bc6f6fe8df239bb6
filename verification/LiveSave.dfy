/**
 trace_save while the trace is still being recorded (trace_disk.c, ide.c of REPLAY-OS). The shell
 saves with interrupts on and ide_write_sector reads memory word by word, so events may be recorded
 between any two words. Every slot that took no event meanwhile is saved as it was at the start.
 */
module LiveSave {
  import opened TraceRing
  import opened TraceDisk

  const SAVED_BYTES := 24064      // the chunks of a full buffer
  const SECTOR_WORDS := 256
  const MAX_CHUNKS := 47

  /** None of the events n, n + 1, ..., m - 1 goes to slot i. */
  ghost predicate Spared(n: nat, m: nat, i: nat) {
    forall j: nat :: n <= j < m ==> j % MAX_EVENTS != i
  }

  ghost predicate SameByte(before: seq<Byte>, after: seq<Byte>, n: nat, m: nat, k: nat) {
    k < |before| && k < |after| && Spared(n, m, k / EVENT_SIZE) ==> after[k] == before[k]
  }

  /** Recording events n .. m - 1 has turned `before` into `after`: only bytes of slots they went to may differ. */
  ghost predicate SparedSame(before: seq<Byte>, after: seq<Byte>, n: nat, m: nat) {
    && |after| == |before| && n <= m
    && forall k: nat {:trigger SameByte(before, after, n, m, k)} :: SameByte(before, after, n, m, k)
  }

  lemma SparedLess(n: nat, m: nat, m': nat, i: nat)
    requires m <= m' && Spared(n, m', i)
    ensures Spared(n, m, i)
  {}

  lemma SlotOfByte(n: nat, k: nat)
    requires k / EVENT_SIZE != n
    ensures k < n * EVENT_SIZE || k >= n * EVENT_SIZE + EVENT_SIZE
  {}

  lemma StoreSpares(before: seq<Byte>, bytes: seq<Byte>, n: nat, m: nat, r: Record)
    requires SparedSame(before, bytes, n, m) && MAX_EVENTS * EVENT_SIZE <= |bytes|
    ensures SparedSame(before, Stored(bytes, m % MAX_EVENTS * EVENT_SIZE, r), n, m + 1)
  {
    var slot, more := m % MAX_EVENTS, m + 1;
    var after := Stored(bytes, slot * EVENT_SIZE, r);
    forall k: nat ensures SameByte(before, after, n, more, k) {
      assert SameByte(before, bytes, n, m, k);
      if k < |before| && Spared(n, more, k / EVENT_SIZE) {
        SparedLess(n, m, more, k / EVENT_SIZE);
        SlotOfByte(slot, k);
      }
    }
  }

  ghost predicate ReadByte(data: seq<Byte>, bytes: seq<Byte>, at: nat, n: nat, m: nat, k: nat) {
    k < |data| && at + k < |bytes| && Spared(n, m, (at + k) / EVENT_SIZE) ==> data[k] == bytes[at + k]
  }

  /** `data` is `bytes` from `at` on, wherever events n .. m - 1 spared the slot. */
  ghost predicate ReadSpared(data: seq<Byte>, bytes: seq<Byte>, at: nat, n: nat, m: nat) {
    at + |data| <= |bytes|
    && forall k: nat {:trigger ReadByte(data, bytes, at, n, m, k)} :: ReadByte(data, bytes, at, n, m, k)
  }

  lemma ReadLater(data: seq<Byte>, bytes: seq<Byte>, at: nat, n: nat, m: nat, m': nat)
    requires ReadSpared(data, bytes, at, n, m) && m <= m'
    ensures ReadSpared(data, bytes, at, n, m')
  {
    forall k: nat ensures ReadByte(data, bytes, at, n, m', k) {
      assert ReadByte(data, bytes, at, n, m, k);
      if Spared(n, m', (at + k) / EVENT_SIZE) { SparedLess(n, m, m', (at + k) / EVENT_SIZE); }
    }
  }

  lemma ReadMore(data: seq<Byte>, bytes: seq<Byte>, now: seq<Byte>, at: nat, n: nat, m: nat)
    requires ReadSpared(data, bytes, at, n, m) && SparedSame(bytes, now, n, m) && at + |data| + 2 <= |bytes|
    ensures ReadSpared(data + [now[at + |data|], now[at + |data| + 1]], bytes, at, n, m)
  {
    var more := data + [now[at + |data|], now[at + |data| + 1]];
    forall k: nat ensures ReadByte(more, bytes, at, n, m, k) {
      assert ReadByte(data, bytes, at, n, m, k) && SameByte(bytes, now, n, m, at + k);
    }
  }

  /** Sector i of the saved events holds what was read of the memory from byte 512 i on. */
  ghost predicate ChunkSpared(disk: Disk, i: nat, bytes: seq<Byte>, n: nat, m: nat) {
    DATA_LBA + i in disk && |disk[DATA_LBA + i]| == SECTOR
    && ReadSpared(disk[DATA_LBA + i], bytes, i * SECTOR, n, m)
  }

  /** The first `count` chunks on the disk. */
  ghost predicate ChunksSpared(disk: Disk, count: nat, bytes: seq<Byte>, n: nat, m: nat) {
    forall i: nat {:trigger ChunkSpared(disk, i, bytes, n, m)} :: i < count ==> ChunkSpared(disk, i, bytes, n, m)
  }

  lemma ChunksLater(disk: Disk, after: Disk, count: nat, bytes: seq<Byte>, n: nat, m: nat, m': nat)
    requires ChunksSpared(disk, count, bytes, n, m) && m <= m' && disk.Keys <= after.Keys
    requires forall lba :: lba in disk && lba != DATA_LBA + count ==> after[lba] == disk[lba]
    ensures ChunksSpared(after, count, bytes, n, m')
  {
    forall i: nat | i < count ensures ChunkSpared(after, i, bytes, n, m') {
      assert ChunkSpared(disk, i, bytes, n, m);
      ReadLater(disk[DATA_LBA + i], bytes, i * SECTOR, n, m, m');
    }
  }

  lemma ChunksFewer(disk: Disk, count: nat, fewer: nat, bytes: seq<Byte>, n: nat, m: nat)
    requires ChunksSpared(disk, count, bytes, n, m) && fewer <= count
    ensures ChunksSpared(disk, fewer, bytes, n, m)
  {}

  lemma CountBounded(n: nat)
    ensures Kept(n) <= MAX_EVENTS && SectorsNeeded(Kept(n)) <= MAX_CHUNKS
    ensures SectorsNeeded(Kept(n)) * SECTOR <= SAVED_BYTES
  {}

  lemma CountGrows(n: nat, m: nat)
    requires n <= m
    ensures SectorsNeeded(Kept(n)) <= SectorsNeeded(Kept(m))
  {}

  class Saver {
    const trace: Trace
    var disk: Disk

    constructor (t: Trace, d: Disk)
      ensures trace == t && disk == d
    {
      trace := t;
      disk := d;
    }

    ghost predicate Valid()
      reads this, trace, trace.mem
    {
      trace.Valid() && Formatted(disk) && SAVED_BYTES <= trace.mem.Length
    }

    /** Saving began with n events recorded and these bytes in memory. */
    ghost predicate Since(bytes: seq<Byte>, n: nat)
      reads this, trace, trace.mem
    {
      Valid() && SparedSame(bytes, trace.mem[..], n, |trace.history|)
    }

    /** Any number of events, if recording is on. */
    method Recording(ghost bytes: seq<Byte>, ghost n: nat)
      requires Since(bytes, n)
      modifies trace`head, trace`count, trace`history, trace.mem
      ensures Since(bytes, n) && |old(trace.history)| <= |trace.history|
    {
      var events: nat := *;
      while events > 0
        invariant Since(bytes, n) && |old(trace.history)| <= |trace.history|
      {
        ghost var before, m := trace.mem[..], |trace.history|;
        assert Storable(Record(0, 0, 0)) by { assert Pow256(4) > 0 && Pow256(8) > 0; }
        var r: Record :| Storable(r);
        trace.TraceRecord(r.kind, r.tick, r.payload);
        if trace.recording { StoreSpares(bytes, before, n, m, r); }
        events := events - 1;
      }
    }

    /** ide_write_sector of chunk i: each word is read when its turn comes. */
    method WriteChunk(i: nat, ghost bytes: seq<Byte>, ghost n: nat)
      requires Since(bytes, n) && (i + 1) * SECTOR <= trace.mem.Length
      modifies this`disk, trace`head, trace`count, trace`history, trace.mem
      ensures Since(bytes, n) && |old(trace.history)| <= |trace.history|
      ensures ChunkSpared(disk, i, bytes, n, |trace.history|)
      ensures disk == old(disk)[DATA_LBA + i := disk[DATA_LBA + i]]
    {
      var at := i * SECTOR;
      var data: seq<Byte> := [];
      for w := 0 to SECTOR_WORDS
        modifies trace`head, trace`count, trace`history, trace.mem
        invariant Since(bytes, n) && |old(trace.history)| <= |trace.history|
        invariant |data| == 2 * w && ReadSpared(data, bytes, at, n, |trace.history|)
      {
        ReadMore(data, bytes, trace.mem[..], at, n, |trace.history|);
        data := data + [trace.mem[at + 2 * w], trace.mem[at + 2 * w + 1]];
        ghost var m := |trace.history|;
        Recording(bytes, n);
        ReadLater(data, bytes, at, n, m, |trace.history|);
      }
      disk := disk[DATA_LBA + i := data];
    }

    /**
     trace_save: the count goes out first and is read again for the number of chunks. On the disk are
     the count at the start and, wherever no event fell in between, the bytes at the start.
     */
    method TraceSave()
      requires Valid()
      modifies this`disk, trace`head, trace`count, trace`history, trace.mem
      ensures Valid() && |old(trace.history)| <= |trace.history|
      ensures SectorOf(disk, COUNT_LBA) == CountSector(old(trace.count))
      ensures ChunksSpared(disk, SectorsNeeded(old(trace.count)), old(trace.mem[..]), |old(trace.history)|,
                           |trace.history|)
      ensures forall lba :: lba in old(disk) && !(COUNT_LBA <= lba < DATA_LBA + MAX_CHUNKS) ==>
                lba in disk && disk[lba] == old(disk)[lba]
    {
      ghost var bytes, n := trace.mem[..], |trace.history|;
      disk := disk[COUNT_LBA := CountSector(trace.count)];
      Recording(bytes, n);
      var sectors := SectorsNeeded(trace.count);
      CountBounded(|trace.history|);
      CountGrows(n, |trace.history|);
      for i := 0 to sectors
        invariant Since(bytes, n) && n <= |trace.history|
        invariant COUNT_LBA in disk && disk[COUNT_LBA] == CountSector(old(trace.count))
        invariant ChunksSpared(disk, i, bytes, n, |trace.history|)
        invariant forall lba :: lba in old(disk) && !(COUNT_LBA <= lba < DATA_LBA + MAX_CHUNKS) ==>
                    lba in disk && disk[lba] == old(disk)[lba]
      {
        ghost var before, m := disk, |trace.history|;
        WriteChunk(i, bytes, n);
        ChunksLater(before, disk, i, bytes, n, m, |trace.history|);
      }
      ChunksFewer(disk, sectors, SectorsNeeded(old(trace.count)), bytes, n, |trace.history|);
    }
  }

  /** Loading such a disk gives back every record of a spared slot, as the ring held it when the save began. */
  lemma LiveSaveThenLoad(disk: Disk, bytes: seq<Byte>, history: seq<Record>, m: nat, into: seq<Byte>, i: nat)
    requires Formatted(disk) && MAX_EVENTS * EVENT_SIZE <= |bytes| && HoldsLast(bytes, history)
    requires SectorOf(disk, COUNT_LBA) == CountSector(Kept(|history|))
    requires ChunksSpared(disk, SectorsNeeded(Kept(|history|)), bytes, |history|, m)
    requires SAVED_BYTES <= |into| && i < Kept(|history|) && Spared(|history|, m, i)
    ensures LoadCount(disk) == Kept(|history|)
    ensures SectorsNeeded(Kept(|history|)) * SECTOR <= |into|
    ensures 0 <= InSlot(|history|, i) < |history|
    ensures RecordAt(LoadBytes(disk, into, SectorsNeeded(Kept(|history|))), i * EVENT_SIZE)
            == history[InSlot(|history|, i)]
  {
    var count := Kept(|history|);
    CountBounded(|history|);
    LoadedCount(disk, count);
    InSlotMod(|history|, i);
    assert Holds(bytes, history, InSlot(|history|, i));
    var loaded := LoadBytes(disk, into, SectorsNeeded(count));
    forall k: nat | i * EVENT_SIZE <= k < i * EVENT_SIZE + EVENT_SIZE ensures loaded[k] == bytes[k] {
      LoadedByte(disk, bytes, |history|, m, into, count, i, k);
    }
    SameRecord(loaded, bytes, i * EVENT_SIZE);
  }

  lemma LoadedCount(disk: Disk, count: nat)
    requires Formatted(disk) && SectorOf(disk, COUNT_LBA) == CountSector(count) && count <= MAX_EVENTS
    ensures LoadCount(disk) == count
  {
    assert CountSector(count)[..4] == ToBytes(count, 4);
    assert Pow256(4) == 0x1_0000_0000;
    BytesRoundTrip(count, 4);
  }

  lemma LoadedByte(disk: Disk, bytes: seq<Byte>, n: nat, m: nat, into: seq<Byte>, count: nat, i: nat, k: nat)
    requires Formatted(disk) && count <= MAX_EVENTS && ChunksSpared(disk, SectorsNeeded(count), bytes, n, m)
    requires MAX_EVENTS * EVENT_SIZE <= |bytes| && SAVED_BYTES <= |into| && i < count && Spared(n, m, i)
    requires i * EVENT_SIZE <= k < i * EVENT_SIZE + EVENT_SIZE
    ensures SectorsNeeded(count) * SECTOR <= |into|
    ensures LoadBytes(disk, into, SectorsNeeded(count))[k] == bytes[k]
  {
    var s, r := k / SECTOR, k % SECTOR;
    CountChunks(count, i, k);
    LoadBytesAre(disk, into, SectorsNeeded(count), k);
    assert ChunkSpared(disk, s, bytes, n, m);
    assert ReadByte(disk[DATA_LBA + s], bytes, s * SECTOR, n, m, r);
  }

  lemma CountChunks(count: nat, i: nat, k: nat)
    requires i < count <= MAX_EVENTS && i * EVENT_SIZE <= k < i * EVENT_SIZE + EVENT_SIZE
    ensures k / EVENT_SIZE == i && k == k / SECTOR * SECTOR + k % SECTOR && k / SECTOR < SectorsNeeded(count)
    ensures k < SectorsNeeded(count) * SECTOR <= SAVED_BYTES
  {}

  lemma SameRecord(a: seq<Byte>, b: seq<Byte>, at: nat)
    requires at + EVENT_SIZE <= |a| && at + EVENT_SIZE <= |b|
    requires forall k: nat :: at <= k < at + EVENT_SIZE ==> a[k] == b[k]
    ensures RecordAt(a, at) == RecordAt(b, at)
  {
    assert a[at..at + 4] == b[at..at + 4] && a[at + 8..at + 16] == b[at + 8..at + 16];
    assert a[at + 16..at + 24] == b[at + 16..at + 24];
  }
}
