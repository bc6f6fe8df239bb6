/**
 Saving the trace to disk and loading it back (trace_disk.c of REPLAY-OS). The disk is a map from
 LBA to 512 bytes; memory is the bytes from trace_buffer on, of which the buffer is the first
 24000. The sector copies may run past the buffer, and exactly when is part of the result.
 */
module TraceDisk {
  import opened TraceRing

  const SECTOR := 512
  const COUNT_LBA := 1000
  const DATA_LBA := 1001
  const BUFFER := 24000
  const WORKLOAD_LBA := 5000
  const WORKLOAD_SECTORS := 10

  type Disk = map<nat, seq<Byte>>

  function SectorsNeeded(count: nat): nat {
    count * EVENT_SIZE / SECTOR + 1
  }

  /** The chunks always cover the events, with 1 to 512 bytes to spare. */
  lemma SectorsCover(count: nat)
    ensures 1 <= SectorsNeeded(count) * SECTOR - count * EVENT_SIZE <= SECTOR
  {}

  /** They stay inside the buffer exactly up to 981 events. */
  lemma SectorsInBuffer(count: nat)
    ensures SectorsNeeded(count) == count * 24 / 512 + 1
    ensures SectorsNeeded(count) * 512 <= 24000 <==> count <= 981
  {}

  /** A sector never written reads as zeros. */
  function SectorOf(disk: Disk, lba: nat): (s: seq<Byte>)
    requires Formatted(disk)
    ensures |s| == SECTOR
  {
    if lba in disk then disk[lba] else seq(SECTOR, i => 0)
  }

  ghost predicate Formatted(disk: Disk) {
    forall lba :: lba in disk ==> |disk[lba]| == SECTOR
  }

  function Chunk(bytes: seq<Byte>, i: nat): (s: seq<Byte>)
    requires (i + 1) * SECTOR <= |bytes|
    ensures |s| == SECTOR
  {
    bytes[i * SECTOR..i * SECTOR + SECTOR]
  }

  function CountSector(count: nat): (s: seq<Byte>)
    ensures |s| == SECTOR
  {
    ToBytes(count, 4) + seq(SECTOR - 4, i => 0)
  }

  /** The count in the first four bytes, lowest first, and zeros behind it. */
  lemma CountSectorBytes(count: nat, i: nat)
    requires i < 512
    ensures CountSector(count)[i] == if i < 4 then Shifted(count, i) % 256 else 0
  {
    if i < 4 { BytesAreDigits(count, 4, i); }
  }

  /** What trace_save leaves on the disk: the count, the chunks, and everything else as it was. */
  ghost predicate HasTrace(disk: Disk, bytes: seq<Byte>, count: nat)
    requires Formatted(disk) && SectorsNeeded(count) * SECTOR <= |bytes|
  {
    && SectorOf(disk, COUNT_LBA) == CountSector(count)
    && forall i :: 0 <= i < SectorsNeeded(count) ==> SectorOf(disk, DATA_LBA + i) == Chunk(bytes, i)
  }

  /** In numbers: the count in sector 1000, lowest byte first and zeros behind; event bytes from sector 1001 on. */
  lemma TraceSectors(disk: Disk, bytes: seq<Byte>, count: nat, i: nat, j: nat)
    requires Formatted(disk) && SectorsNeeded(count) * SECTOR <= |bytes| && HasTrace(disk, bytes, count) && j < 512
    ensures SectorOf(disk, 1000)[j] == if j < 4 then Shifted(count, j) % 256 else 0
    ensures i < count * 24 / 512 + 1 ==>
              i * 512 + 512 <= |bytes| && SectorOf(disk, 1001 + i)[j] == bytes[i * 512 + j]
  {
    CountSectorBytes(count, j);
    if i < count * 24 / 512 + 1 { assert SectorOf(disk, DATA_LBA + i) == Chunk(bytes, i); }
  }

  /** The disk after trace_save has written the count and n chunks. */
  function Saved(disk: Disk, bytes: seq<Byte>, count: nat, n: nat): (d: Disk)
    requires Formatted(disk) && n * SECTOR <= |bytes|
    ensures Formatted(d)
    decreases n
  {
    if n == 0 then disk[COUNT_LBA := CountSector(count)]
    else Saved(disk, bytes, count, n - 1)[DATA_LBA + n - 1 := Chunk(bytes, n - 1)]
  }

  /** Sector by sector: count, chunks, and every other sector as it was. */
  lemma {:induction false} SavedSectors(disk: Disk, bytes: seq<Byte>, count: nat, n: nat, lba: nat)
    requires Formatted(disk) && n * SECTOR <= |bytes|
    ensures SectorOf(Saved(disk, bytes, count, n), lba)
            == if lba == COUNT_LBA then CountSector(count)
               else if DATA_LBA <= lba < DATA_LBA + n then Chunk(bytes, lba - DATA_LBA)
               else SectorOf(disk, lba)
    decreases n
  {
    if n > 0 { SavedSectors(disk, bytes, count, n - 1, lba); }
  }

  lemma SavedChunk(disk: Disk, bytes: seq<Byte>, count: nat, n: nat, i: nat)
    requires Formatted(disk) && n * SECTOR <= |bytes| && i < n
    ensures SectorOf(Saved(disk, bytes, count, n), DATA_LBA + i) == Chunk(bytes, i)
  {
    SavedSectors(disk, bytes, count, n, DATA_LBA + i);
  }

  lemma SavedHasTrace(disk: Disk, bytes: seq<Byte>, count: nat)
    requires Formatted(disk) && SectorsNeeded(count) * SECTOR <= |bytes|
    ensures HasTrace(Saved(disk, bytes, count, SectorsNeeded(count)), bytes, count)
  {
    SavedHas(disk, bytes, count, Saved(disk, bytes, count, SectorsNeeded(count)));
  }

  lemma SavedHas(disk: Disk, bytes: seq<Byte>, count: nat, d: Disk)
    requires Formatted(disk) && SectorsNeeded(count) * SECTOR <= |bytes| && Formatted(d)
    requires d == Saved(disk, bytes, count, SectorsNeeded(count))
    ensures HasTrace(d, bytes, count)
  {
    SavedSectors(disk, bytes, count, SectorsNeeded(count), COUNT_LBA);
    forall i | 0 <= i < SectorsNeeded(count) ensures SectorOf(d, DATA_LBA + i) == Chunk(bytes, i) {
      SavedChunk(disk, bytes, count, SectorsNeeded(count), i);
    }
  }

  /** The count trace_load reads. */
  function LoadCount(disk: Disk): nat
    requires Formatted(disk)
  {
    FromBytes(SectorOf(disk, COUNT_LBA)[..4])
  }

  /** The memory after trace_load has copied n sectors. */
  function LoadBytes(disk: Disk, bytes: seq<Byte>, n: nat): (r: seq<Byte>)
    requires Formatted(disk) && n * SECTOR <= |bytes|
    ensures |r| == |bytes|
    decreases n
  {
    if n == 0 then bytes
    else
      var before := LoadBytes(disk, bytes, n - 1);
      before[..(n - 1) * SECTOR] + SectorOf(disk, DATA_LBA + n - 1) + before[n * SECTOR..]
  }

  lemma {:induction false} LoadBytesAre(disk: Disk, bytes: seq<Byte>, n: nat, i: nat)
    requires Formatted(disk) && n * SECTOR <= |bytes| && i < |bytes|
    ensures LoadBytes(disk, bytes, n)[i]
            == if i < n * SECTOR then SectorOf(disk, DATA_LBA + i / SECTOR)[i % SECTOR] else bytes[i]
    decreases n
  {
    if n > 0 { LoadBytesAre(disk, bytes, n - 1, i); }
  }

  lemma CountRoundTrip(disk: Disk, bytes: seq<Byte>, count: nat)
    requires Formatted(disk) && SectorsNeeded(count) * SECTOR <= |bytes| && count < Pow256(4)
    requires HasTrace(disk, bytes, count)
    ensures LoadCount(disk) == count
  {
    assert CountSector(count)[..4] == ToBytes(count, 4);
    BytesRoundTrip(count, 4);
  }

  /**
   Save then load: from any later disk that still has the trace, and into any memory, the count
   and the bytes of all its events come back.
   */
  lemma SaveThenLoad(disk: Disk, saved: seq<Byte>, count: nat, bytes: seq<Byte>)
    requires Formatted(disk) && count < Pow256(4)
    requires SectorsNeeded(count) * SECTOR <= |saved| && SectorsNeeded(count) * SECTOR <= |bytes|
    requires HasTrace(disk, saved, count)
    ensures LoadCount(disk) == count
    ensures LoadBytes(disk, bytes, SectorsNeeded(count))[..count * EVENT_SIZE] == saved[..count * EVENT_SIZE]
  {
    CountRoundTrip(disk, saved, count);
    SectorsCover(count);
    var n := SectorsNeeded(count);
    forall i | 0 <= i < count * EVENT_SIZE ensures LoadBytes(disk, bytes, n)[i] == saved[i] {
      LoadBytesAre(disk, bytes, n, i);
      assert i / SECTOR < n && SectorOf(disk, DATA_LBA + i / SECTOR) == Chunk(saved, i / SECTOR);
    }
  }

  lemma SameSlice(a: seq<Byte>, b: seq<Byte>, n: nat, lo: nat, hi: nat)
    requires n <= |a| && n <= |b| && a[..n] == b[..n] && lo <= hi <= n
    ensures a[lo..hi] == b[lo..hi]
  {
    assert a[lo..hi] == a[..n][lo..hi] && b[lo..hi] == b[..n][lo..hi];
  }

  /** Hence every record reads back as it was. */
  lemma RecordsComeBack(disk: Disk, saved: seq<Byte>, count: nat, bytes: seq<Byte>, k: nat)
    requires Formatted(disk) && count < Pow256(4) && k < count
    requires SectorsNeeded(count) * SECTOR <= |saved| && SectorsNeeded(count) * SECTOR <= |bytes|
    requires HasTrace(disk, saved, count)
    ensures var loaded := LoadBytes(disk, bytes, SectorsNeeded(count));
            && k * EVENT_SIZE + EVENT_SIZE <= |loaded| && k * EVENT_SIZE + EVENT_SIZE <= |saved|
            && RecordAt(loaded, k * EVENT_SIZE) == RecordAt(saved, k * EVENT_SIZE)
  {
    SectorsCover(count);
    SaveThenLoad(disk, saved, count, bytes);
    var loaded := LoadBytes(disk, bytes, SectorsNeeded(count));
    var at := k * EVENT_SIZE;
    SameSlice(loaded, saved, count * EVENT_SIZE, at, at + 4);
    SameSlice(loaded, saved, count * EVENT_SIZE, at + 8, at + 16);
    SameSlice(loaded, saved, count * EVENT_SIZE, at + 16, at + 24);
  }

  /** Memory past the last chunk is untouched; memory past the buffer is touched exactly above 981 events. */
  lemma LoadStaysInBuffer(disk: Disk, bytes: seq<Byte>, count: nat)
    requires Formatted(disk) && SectorsNeeded(count) * SECTOR <= |bytes| && BUFFER <= |bytes|
    ensures count <= 981 ==> LoadBytes(disk, bytes, SectorsNeeded(count))[BUFFER..] == bytes[BUFFER..]
    ensures count > 981 ==> LoadBytes(disk, bytes, SectorsNeeded(count))[BUFFER]
                            == SectorOf(disk, DATA_LBA + BUFFER / SECTOR)[BUFFER % SECTOR]
  {
    SectorsInBuffer(count);
    forall i | BUFFER <= i < |bytes|
      ensures count <= 981 ==> LoadBytes(disk, bytes, SectorsNeeded(count))[i] == bytes[i]
    {
      LoadBytesAre(disk, bytes, SectorsNeeded(count), i);
    }
    if count > 981 { LoadBytesAre(disk, bytes, SectorsNeeded(count), BUFFER); }
  }

  // ---------------------------------------------------------------- other disk traffic

  /** One run of workload_io. */
  function Workload(disk: Disk, n: nat): (d: Disk)
    requires n <= WORKLOAD_SECTORS && Formatted(disk)
    ensures Formatted(d)
    decreases n
  {
    if n == 0 then disk else Workload(disk, n - 1)[WORKLOAD_LBA + n - 1 := seq(SECTOR, i => i % 256)]
  }

  /** workload_io leaves the bytes 0, 1, ..., 255, 0, ... in each of the sectors 5000 to 5009. */
  lemma {:induction false} WorkloadSectors(disk: Disk, n: nat, i: nat, k: nat)
    requires Formatted(disk) && i < n <= 10 && k < 512
    ensures SectorOf(Workload(disk, n), 5000 + i)[k] == k % 256
    decreases n
  {
    if i < n - 1 { WorkloadSectors(disk, n - 1, i, k); }
  }

  function Workloads(disk: Disk, runs: nat): (d: Disk)
    requires Formatted(disk)
    ensures Formatted(d)
    decreases runs
  {
    if runs == 0 then disk else Workload(Workloads(disk, runs - 1), WORKLOAD_SECTORS)
  }

  lemma {:induction false} WorkloadElsewhere(disk: Disk, n: nat, lba: nat)
    requires n <= WORKLOAD_SECTORS && Formatted(disk) && !(WORKLOAD_LBA <= lba < WORKLOAD_LBA + WORKLOAD_SECTORS)
    ensures SectorOf(Workload(disk, n), lba) == SectorOf(disk, lba)
    decreases n
  {
    if n > 0 { WorkloadElsewhere(disk, n - 1, lba); }
  }

  /** Any number of workload runs leaves a saved trace on the disk. */
  lemma {:induction false} WorkloadsKeepTrace(disk: Disk, runs: nat, saved: seq<Byte>, count: nat)
    requires Formatted(disk) && count <= MAX_EVENTS && SectorsNeeded(count) * SECTOR <= |saved|
    requires HasTrace(disk, saved, count)
    ensures HasTrace(Workloads(disk, runs), saved, count)
    decreases runs
  {
    if runs > 0 {
      WorkloadsKeepTrace(disk, runs - 1, saved, count);
      var before := Workloads(disk, runs - 1);
      forall lba: nat | lba < WORKLOAD_LBA ensures SectorOf(Workloads(disk, runs), lba) == SectorOf(before, lba) {
        WorkloadElsewhere(before, WORKLOAD_SECTORS, lba);
      }
    }
  }

  /** The promise of save and load, with any amount of other disk traffic in between. */
  lemma SaveWorkLoad(disk: Disk, saved: seq<Byte>, count: nat, runs: nat, bytes: seq<Byte>)
    requires Formatted(disk) && count <= MAX_EVENTS && HasRoom(saved, count) && HasRoom(bytes, count)
    requires HasTrace(disk, saved, count)
    ensures var later := Workloads(disk, runs);
            && LoadCount(later) == count
            && LoadBytes(later, bytes, SectorsNeeded(count))[..count * EVENT_SIZE] == saved[..count * EVENT_SIZE]
  {
    WorkloadsKeepTrace(disk, runs, saved, count);
    assert Pow256(4) == 0x1_0000_0000;
    SaveThenLoad(Workloads(disk, runs), saved, count, bytes);
  }

  /** End to end: record, save, work, load, replay. Slot i of the loaded buffer is the event the ring held there. */
  lemma ReplayAfterLoad(t: Trace, disk: Disk, runs: nat, bytes: seq<Byte>, i: nat)
    requires t.Valid() && i < t.count && Formatted(disk) && HasRoom(t.mem[..], t.count) && HasRoom(bytes, t.count)
    requires HasTrace(disk, t.mem[..], t.count)
    ensures var later := Workloads(disk, runs);
            var loaded := LoadBytes(later, bytes, SectorsNeeded(t.count));
            && LoadCount(later) == t.count
            && (i + 1) * EVENT_SIZE <= |loaded|
            && 0 <= InSlot(|t.history|, i) < |t.history|
            && RecordAt(loaded, i * EVENT_SIZE) == t.history[InSlot(|t.history|, i)]
  {
    WorkloadsKeepTrace(disk, runs, t.mem[..], t.count);
    assert Pow256(4) == 0x1_0000_0000;
    CountRoundTrip(Workloads(disk, runs), t.mem[..], t.count);
    RecordsComeBack(Workloads(disk, runs), t.mem[..], t.count, bytes, i);
    SlotContents(t, i);
  }

  ghost predicate HasRoom(bytes: seq<Byte>, count: nat) {
    SectorsNeeded(count) * SECTOR <= |bytes| && count * EVENT_SIZE <= |bytes|
  }

  // ------------------------------------------------------------------------ the code

  class Store {
    const mem: array<Byte>
    var count: nat
    var disk: Disk

    constructor (memory: array<Byte>, d: Disk)
      ensures mem == memory && count == 0 && disk == d
    {
      mem := memory;
      count := 0;
      disk := d;
    }

    ghost predicate Valid()
      reads this
    {
      Formatted(disk)
    }

    /** trace_save. */
    method TraceSave()
      requires Valid() && count < Pow256(4) && SectorsNeeded(count) * SECTOR <= mem.Length
      modifies this`disk
      ensures Valid() && disk == Saved(old(disk), mem[..], count, SectorsNeeded(count))
      ensures HasTrace(disk, mem[..], count)
    {
      disk := disk[COUNT_LBA := CountSector(count)];
      var sectors := SectorsNeeded(count);
      for i := 0 to sectors
        invariant disk == Saved(old(disk), mem[..], count, i)
      {
        disk := disk[DATA_LBA + i := mem[i * SECTOR..i * SECTOR + SECTOR]];
      }
      SavedHasTrace(old(disk), mem[..], count);
    }

    /** ide_read_sector into memory. */
    method ReadSector(lba: nat, at: nat)
      requires Valid() && at + SECTOR <= mem.Length
      modifies mem
      ensures mem[..] == old(mem[..])[..at] + SectorOf(disk, lba) + old(mem[..])[at + SECTOR..]
    {
      var data := if lba in disk then disk[lba] else seq(SECTOR, i => 0);
      for i := 0 to SECTOR
        invariant mem[..] == old(mem[..])[..at] + SectorOf(disk, lba)[..i] + old(mem[..])[at + i..]
      {
        mem[at + i] := data[i];
      }
    }

    /** trace_load. The count on the disk decides how much memory is overwritten. */
    method TraceLoad()
      requires Valid() && SectorsNeeded(LoadCount(disk)) * SECTOR <= mem.Length
      modifies this`count, mem
      ensures count == LoadCount(disk)
      ensures mem[..] == LoadBytes(disk, old(mem[..]), SectorsNeeded(count))
    {
      var header := if COUNT_LBA in disk then disk[COUNT_LBA] else seq(SECTOR, i => 0);
      count := FromBytes(header[..4]);
      var sectors := SectorsNeeded(count);
      for i := 0 to sectors
        modifies mem
        invariant mem[..] == LoadBytes(disk, old(mem[..]), i)
      {
        ReadSector(DATA_LBA + i, i * SECTOR);
        assert (i + 1) * SECTOR == i * SECTOR + SECTOR;
      }
    }

    /** workload_io, as far as the disk is concerned. */
    method WorkloadIo()
      requires Valid()
      modifies this`disk
      ensures Valid() && disk == Workload(old(disk), WORKLOAD_SECTORS)
    {
      for i := 0 to WORKLOAD_SECTORS
        invariant Valid() && disk == Workload(old(disk), i)
      {
        disk := disk[WORKLOAD_LBA + i := seq(SECTOR, k => k % 256)];
      }
    }
  }
}
