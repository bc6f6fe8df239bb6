/**
 The physical frame allocator of REPLAY-OS (pmm.c): one bit per 4 KB frame. The bytes are
 proved to behave as the finite set of free frames they encode.
 */
module FrameBitmap {

  const PAGE_SIZE := 4096
  const RESERVED := 512 // frames below 2 MB
  const BITMAP_ADDRESS := 0x100000

  /** 1 << k */
  function Mask(k: nat): bv8
    requires k < 8
  {
    match k
    case 0 => 0x01
    case 1 => 0x02
    case 2 => 0x04
    case 3 => 0x08
    case 4 => 0x10
    case 5 => 0x20
    case 6 => 0x40
    case _ => 0x80
  }

  predicate Bit(b: bv8, k: nat)
    requires k < 8
  {
    b & Mask(k) != 0
  }

  lemma SetBitOnly(b: bv8, k: nat, j: nat)
    requires k < 8 && j < 8
    ensures Bit(b | Mask(k), j) <==> j == k || Bit(b, j)
  {}

  lemma ClearBitOnly(b: bv8, k: nat, j: nat)
    requires k < 8 && j < 8
    ensures Bit(b & !Mask(k), j) <==> j != k && Bit(b, j)
  {}

  lemma SetThenClear(b: bv8, k: nat)
    requires k < 8 && !Bit(b, k)
    ensures (b | Mask(k)) & !Mask(k) == b
  {}

  /** Frame i is marked in the bitmap. */
  predicate Used(bytes: seq<bv8>, i: nat)
    requires i / 8 < |bytes|
  {
    Bit(bytes[i / 8], i % 8)
  }

  /** Frame i is bit i % 8, counted from the least significant, of byte i / 8. */
  lemma UsedIsBit(bytes: seq<bv8>, i: nat)
    requires i / 8 < |bytes|
    ensures Used(bytes, i) <==> bytes[i / 8] & (1 << (i % 8)) != 0
  {
    MaskIsShift(i % 8);
  }

  lemma MaskIsShift(k: nat)
    requires k < 8
    ensures Mask(k) == 1 << k
  {}

  function Mark(bytes: seq<bv8>, i: nat): seq<bv8>
    requires i / 8 < |bytes|
  {
    bytes[i / 8 := bytes[i / 8] | Mask(i % 8)]
  }

  function Unmark(bytes: seq<bv8>, i: nat): seq<bv8>
    requires i / 8 < |bytes|
  {
    bytes[i / 8 := bytes[i / 8] & !Mask(i % 8)]
  }

  lemma SameBit(i: nat, j: nat)
    ensures i == j <==> i / 8 == j / 8 && i % 8 == j % 8
  {
    assert j == 8 * (j / 8) + j % 8 && i == 8 * (i / 8) + i % 8;
  }

  lemma UpdateAt(bytes: seq<bv8>, q: nat, k: nat, q': nat, k': nat)
    requires q < |bytes| && q' < |bytes| && k < 8 && k' < 8
    ensures Bit(bytes[q := bytes[q] | Mask(k)][q'], k') <==> (q == q' && k == k') || Bit(bytes[q'], k')
    ensures Bit(bytes[q := bytes[q] & !Mask(k)][q'], k') <==> !(q == q' && k == k') && Bit(bytes[q'], k')
  {
    if q == q' {
      SetBitOnly(bytes[q], k, k');
      ClearBitOnly(bytes[q], k, k');
    }
  }

  /** Setting a bit changes the status of that frame and of no other ... */
  lemma MarkUsed(bytes: seq<bv8>, i: nat, j: nat)
    requires i / 8 < |bytes| && j / 8 < |bytes|
    ensures Used(Mark(bytes, i), j) <==> j == i || Used(bytes, j)
  {
    var q, k, q', k' := i / 8, i % 8, j / 8, j % 8;
    SameBit(i, j);
    UpdateAt(bytes, q, k, q', k');
    assert Used(Mark(bytes, i), j) <==> Bit(bytes[q := bytes[q] | Mask(k)][q'], k');
  }

  /** ... and so does clearing one. */
  lemma UnmarkUsed(bytes: seq<bv8>, i: nat, j: nat)
    requires i / 8 < |bytes| && j / 8 < |bytes|
    ensures Used(Unmark(bytes, i), j) <==> j != i && Used(bytes, j)
  {
    var q, k, q', k' := i / 8, i % 8, j / 8, j % 8;
    SameBit(i, j);
    UpdateAt(bytes, q, k, q', k');
    assert Used(Unmark(bytes, i), j) <==> Bit(bytes[q := bytes[q] & !Mask(k)][q'], k');
  }

  /** Freeing a frame just handed out restores the bitmap byte for byte. */
  lemma UnmarkRestores(bytes: seq<bv8>, i: nat)
    requires i / 8 < |bytes| && !Used(bytes, i)
    ensures Unmark(Mark(bytes, i), i) == bytes
  {
    SetThenClear(bytes[i / 8], i % 8);
  }

  /** The set the bitmap stands for. */
  ghost function FreeFrames(bytes: seq<bv8>, total: nat): set<nat>
    requires total <= 8 * |bytes|
  {
    set i: nat | 0 <= i < total && !Used(bytes, i)
  }

  lemma MarkRemoves(bytes: seq<bv8>, total: nat, i: nat)
    requires total <= 8 * |bytes| && i / 8 < |bytes|
    ensures FreeFrames(Mark(bytes, i), total) == FreeFrames(bytes, total) - {i}
    ensures i < total ==> FreeFrames(Unmark(bytes, i), total) == FreeFrames(bytes, total) + {i}
  {
    forall j: nat | j < total
      ensures Used(Mark(bytes, i), j) <==> j == i || Used(bytes, j)
      ensures Used(Unmark(bytes, i), j) <==> j != i && Used(bytes, j)
    {
      MarkUsed(bytes, i, j);
      UnmarkUsed(bytes, i, j);
    }
  }

  /** The least free frame, or `total`. */
  function Lowest(bytes: seq<bv8>, total: nat, i: nat): (r: nat)
    requires total <= 8 * |bytes| && i <= total
    ensures i <= r <= total && (forall j: nat :: i <= j < r ==> Used(bytes, j))
    ensures r < total ==> !Used(bytes, r)
    decreases total - i
  {
    if i == total || !Used(bytes, i) then i else Lowest(bytes, total, i + 1)
  }

  ghost predicate IsLeast(s: set<nat>, x: nat) {
    x in s && forall y :: y in s ==> x <= y
  }

  lemma LowestIsLeast(bytes: seq<bv8>, total: nat)
    requires total <= 8 * |bytes|
    ensures var r := Lowest(bytes, total, 0);
            (r == total <==> FreeFrames(bytes, total) == {}) && (r < total ==> IsLeast(FreeFrames(bytes, total), r))
  {
    var r := Lowest(bytes, total, 0);
    if r < total { assert r in FreeFrames(bytes, total); }
  }

  class FrameAllocator {
    const bitmap: array<bv8>   // the bytes at BITMAP_ADDRESS, whatever they hold before pmm_init
    var totalFrames: nat

    ghost predicate Valid()
      reads this
    {
      totalFrames <= 8 * bitmap.Length
    }

    ghost function Free(): set<nat>
      requires Valid()
      reads this, bitmap
    {
      FreeFrames(bitmap[..], totalFrames)
    }

    constructor (memory: array<bv8>)
      ensures bitmap == memory && totalFrames == 0 && Valid()
    {
      bitmap := memory;
      totalFrames := 0;
    }

    /**
     pmm_init. Every whole byte of the bitmap is cleared and the first 512 frames are marked, so
     the frames 512, 513, ... of those bytes are free. When the frame count is no multiple of 8,
     the frames of the last, partial byte keep whatever the memory held.
     */
    method PmmInit(memSize: nat)
      requires bitmap.Length >= RESERVED / 8 && memSize / PAGE_SIZE < 8 * bitmap.Length
      modifies this, bitmap
      ensures Valid() && totalFrames == memSize / 4096
      ensures forall i: nat :: i / 8 < bitmap.Length ==>
                (Used(bitmap[..], i) <==> i < 512 || (i >= totalFrames / 8 * 8 && Used(old(bitmap[..]), i)))
      ensures totalFrames % 8 == 0 ==> forall i :: i in Free() <==> 512 <= i < totalFrames
    {
      totalFrames := memSize / PAGE_SIZE;
      var bitmapSize := totalFrames / 8;
      for i := 0 to bitmapSize
        modifies bitmap
        invariant forall k :: 0 <= k < i ==> bitmap[k] == 0
        invariant forall k :: i <= k < bitmap.Length ==> bitmap[k] == old(bitmap[k])
      {
        bitmap[i] := 0;
      }
      ghost var cleared := bitmap[..];
      for i := 0 to RESERVED
        modifies bitmap
        invariant forall j: nat :: j / 8 < bitmap.Length ==> (Used(bitmap[..], j) <==> j < i || Used(cleared, j))
      {
        ghost var before := bitmap[..];
        bitmap[i / 8] := bitmap[i / 8] | Mask(i % 8);
        assert bitmap[..] == Mark(before, i);
        forall j: nat | j / 8 < bitmap.Length ensures Used(bitmap[..], j) <==> j < i + 1 || Used(cleared, j) {
          MarkUsed(before, i, j);
        }
      }
      forall j: nat | j / 8 < bitmap.Length
        ensures Used(cleared, j) <==> j >= totalFrames / 8 * 8 && Used(old(bitmap[..]), j)
      {
        assert j / 8 < bitmapSize <==> j < bitmapSize * 8;
        if j / 8 < bitmapSize { ZeroByte(j % 8); }
      }
    }

    /** pmm_alloc_frame: the address of the least free frame, or null when there is none. */
    method PmmAllocFrame() returns (address: nat)
      requires Valid()
      modifies bitmap
      ensures var i := Lowest(old(bitmap[..]), totalFrames, 0);
              if i < totalFrames then address == i * PAGE_SIZE && bitmap[..] == Mark(old(bitmap[..]), i)
              else address == 0 && bitmap[..] == old(bitmap[..])
      ensures Free() == if old(Free()) == {} then {} else old(Free()) - {address / PAGE_SIZE}
      ensures old(Free()) != {} ==> IsLeast(old(Free()), address / 4096) && address % 4096 == 0
    {
      ghost var bytes := bitmap[..];
      LowestIsLeast(bytes, totalFrames);
      var i := 0;
      while i < totalFrames && Bit(bitmap[i / 8], i % 8)
        invariant i <= totalFrames && Lowest(bytes, totalFrames, i) == Lowest(bytes, totalFrames, 0)
      {
        i := i + 1;
      }
      if i == totalFrames {
        return 0;
      }
      MarkRemoves(bytes, totalFrames, i);
      bitmap[i / 8] := bitmap[i / 8] | Mask(i % 8);
      assert bitmap[..] == Mark(bytes, i);
      return i * PAGE_SIZE;
    }

    /** pmm_free_frame. */
    method PmmFreeFrame(frame: nat)
      requires Valid() && frame / PAGE_SIZE < totalFrames
      modifies bitmap
      ensures bitmap[..] == Unmark(old(bitmap[..]), frame / PAGE_SIZE)
      ensures Free() == old(Free()) + {frame / 4096}
    {
      var i := frame / PAGE_SIZE;
      MarkRemoves(bitmap[..], totalFrames, i);
      bitmap[i / 8] := bitmap[i / 8] & !Mask(i % 8);
      assert bitmap[..] == Unmark(old(bitmap[..]), i);
    }
  }

  lemma ZeroByte(k: nat)
    requires k < 8
    ensures !Bit(0, k)
  {}

  // ------------------------------------------------------------------------- runs

  datatype Op = AllocFrame | FreeFrame(index: nat)

  /** The address pmm_alloc_frame returns, as a function of the bitmap. */
  function AllocAddress(bytes: seq<bv8>, total: nat): nat
    requires total <= 8 * |bytes|
  {
    var i := Lowest(bytes, total, 0);
    if i < total then i * PAGE_SIZE else 0
  }

  /** Null means "no memory" only while frame 0 is taken: its address is null too. */
  lemma NullMeansExhausted(bytes: seq<bv8>, total: nat)
    requires 0 < total <= 8 * |bytes|
    ensures AllocAddress(bytes, total) == 0 <==> FreeFrames(bytes, total) == {} || !Used(bytes, 0)
  {
    LowestIsLeast(bytes, total);
    if !Used(bytes, 0) { assert Lowest(bytes, total, 0) == 0; }
  }

  /** Freeing frame 0 right after pmm_init is such a state: null, with all the upper memory free. */
  lemma NullWithMemoryLeft(bytes: seq<bv8>, total: nat)
    requires RESERVED < total <= 8 * |bytes|
    requires forall i: nat :: i / 8 < |bytes| ==> (Used(bytes, i) <==> i < RESERVED)
    ensures var after := Unmark(bytes, 0);
            && AllocAddress(after, total) == 0
            && forall i: nat :: RESERVED <= i < total ==> i in FreeFrames(after, total)
  {
    forall i: nat | i < total ensures Used(Unmark(bytes, 0), i) <==> i != 0 && Used(bytes, i) {
      UnmarkUsed(bytes, 0, i);
    }
    NullMeansExhausted(Unmark(bytes, 0), total);
  }

  function Apply(bytes: seq<bv8>, total: nat, op: Op): (r: seq<bv8>)
    requires total <= 8 * |bytes|
    ensures |r| == |bytes|
  {
    match op
    case AllocFrame => var i := Lowest(bytes, total, 0); if i < total then Mark(bytes, i) else bytes
    case FreeFrame(i) => if i < total then Unmark(bytes, i) else bytes
  }

  function Run(bytes: seq<bv8>, total: nat, ops: seq<Op>): (r: seq<bv8>)
    requires total <= 8 * |bytes|
    ensures |r| == |bytes|
    decreases |ops|
  {
    if ops == [] then bytes else Run(Apply(bytes, total, ops[0]), total, ops[1..])
  }

  ghost predicate LowTaken(bytes: seq<bv8>)
    requires RESERVED <= 8 * |bytes|
  {
    forall i: nat :: i < RESERVED ==> Used(bytes, i)
  }

  lemma {:induction false} RunKeepsLowTaken(bytes: seq<bv8>, total: nat, ops: seq<Op>)
    requires RESERVED <= total <= 8 * |bytes| && LowTaken(bytes)
    requires forall k :: 0 <= k < |ops| && ops[k].FreeFrame? ==> ops[k].index >= RESERVED
    ensures LowTaken(Run(bytes, total, ops))
    decreases |ops|
  {
    if ops != [] {
      var next := Apply(bytes, total, ops[0]);
      forall j: nat | j < RESERVED ensures Used(next, j) {
        var i := if ops[0].AllocFrame? then Lowest(bytes, total, 0) else ops[0].index;
        if i < total {
          MarkUsed(bytes, i, j);
          UnmarkUsed(bytes, i, j);
        }
      }
      RunKeepsLowTaken(next, total, ops[1..]);
    }
  }

  /** While the first 512 frames are never freed, no run ever yields an address below 2 MB. */
  lemma NothingBelowTwoMegabytes(bytes: seq<bv8>, total: nat, ops: seq<Op>)
    requires RESERVED <= total <= 8 * |bytes| && LowTaken(bytes)
    requires forall k :: 0 <= k < |ops| && ops[k].FreeFrame? ==> ops[k].index >= RESERVED
    ensures var after := Run(bytes, total, ops);
            AllocAddress(after, total) == 0 || AllocAddress(after, total) >= 0x200000
    ensures var after := Run(bytes, total, ops);
            AllocAddress(after, total) == 0 <==> FreeFrames(after, total) == {}
  {
    RunKeepsLowTaken(bytes, total, ops);
    var after := Run(bytes, total, ops);
    NullMeansExhausted(after, total);
    assert Used(after, 0);
    var r := Lowest(after, total, 0);
    assert r < RESERVED ==> Used(after, r);
  }
}
