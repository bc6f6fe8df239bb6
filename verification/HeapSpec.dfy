/**
 The first-fit allocator of modular-kernel (mm.c), as a value: which blocks tile the heap and
 in which order the free list visits the free ones. Offsets are bytes from the start of the
 heap; a block at offset b is an 8-byte header followed by `size[b]` payload bytes. That the
 bytes in memory say the same is proved in HeapMemory.dfy.
 */
module HeapSpec {
  import opened Options

  const HEADER := 8
  const TWO32 := 0x1_0000_0000

  /** size_t of the -m32 build. */
  type Size = n: nat | n < TWO32

  datatype Heap = Heap(limit: nat, size: map<nat, nat>, free: seq<nat>)

  function End(h: Heap, b: nat): nat
    requires b in h.size
  {
    b + HEADER + h.size[b]
  }

  ghost predicate Live(h: Heap, b: nat) {
    b in h.size && b !in h.free
  }

  ghost predicate Shaped(h: Heap, b: nat)
    requires b in h.size
  {
    b % 8 == 0 && h.size[b] % 8 == 0 && End(h, b) <= h.limit
  }

  /** The block after b starts where b ends, unless b is the last. */
  ghost predicate Meets(h: Heap, b: nat) {
    b in h.size ==> End(h, b) == h.limit || End(h, b) in h.size
  }

  /** Of two blocks the lower one ends first. */
  ghost predicate Apart(h: Heap, b: nat, c: nat) {
    b in h.size && c in h.size && b < c ==> End(h, b) <= c
  }

  /** Blocks are 8-aligned, lie in the heap, meet end to start and never overlap. */
  ghost predicate Tiled(h: Heap) {
    && h.limit % 8 == 0 && h.limit >= HEADER
    && 0 in h.size
    && (forall b :: b in h.size ==> Shaped(h, b))
    && (forall b {:trigger Meets(h, b)} :: Meets(h, b))
    && (forall b, c {:trigger Apart(h, b, c)} :: Apart(h, b, c))
  }

  ghost predicate FreeListOk(h: Heap) {
    && (forall i :: 0 <= i < |h.free| ==> h.free[i] in h.size)
    && (forall i, j :: 0 <= i < j < |h.free| ==> h.free[i] != h.free[j])
  }

  ghost predicate Inv(h: Heap) {
    Tiled(h) && FreeListOk(h)
  }

  /** mm_init. */
  function Fresh(limit: nat): (h: Heap)
    requires limit >= HEADER && limit % 8 == 0
    ensures Inv(h)
  {
    Heap(limit, map[0 := limit - HEADER], [0])
  }

  /** (size + 7) & ~7 on a 32-bit size_t. */
  function Aligned(request: Size): (n: nat)
    ensures n % 8 == 0 && n < TWO32
    ensures n >= request <==> request <= TWO32 - 8
    ensures request <= TWO32 - 8 ==> n < request + 8
  {
    (request + 7) % TWO32 / 8 * 8
  }

  /** The position in the free list of the first block from `i` on that holds `n` bytes. */
  function FirstFit(h: Heap, n: nat, i: nat): (k: nat)
    requires FreeListOk(h) && i <= |h.free|
    ensures i <= k <= |h.free|
    ensures forall j :: i <= j < k ==> h.size[h.free[j]] < n
    ensures k < |h.free| ==> h.size[h.free[k]] >= n
    decreases |h.free| - i
  {
    if i == |h.free| || h.size[h.free[i]] >= n then i else FirstFit(h, n, i + 1)
  }

  /** Cut the k-th free block after `n` bytes; the remainder takes its place in the list. */
  function Split(h: Heap, k: nat, n: nat): Heap
    requires FreeListOk(h) && k < |h.free| && h.size[h.free[k]] >= n + HEADER
  {
    var b := h.free[k];
    var rest := b + HEADER + n;
    h.(size := h.size[b := n][rest := h.size[b] - n - HEADER], free := h.free[k := rest])
  }

  /** Hand out the k-th free block whole. */
  function Unlink(h: Heap, k: nat): Heap
    requires k < |h.free|
  {
    h.(free := h.free[..k] + h.free[k + 1..])
  }

  /** mm_alloc of an already aligned size: the new heap and the block taken. */
  function AllocAligned(h: Heap, n: nat): (Heap, Option<nat>)
    requires FreeListOk(h)
  {
    var k := FirstFit(h, n, 0);
    if k == |h.free| then (h, None)
    else if h.size[h.free[k]] >= n + HEADER + 8 then (Split(h, k, n), Some(h.free[k]))
    else (Unlink(h, k), Some(h.free[k]))
  }

  function Alloc(h: Heap, request: Size): (Heap, Option<nat>)
    requires FreeListOk(h)
  {
    AllocAligned(h, Aligned(request))
  }

  /** mm_free of the live block b. */
  function Free(h: Heap, b: nat): Heap {
    h.(free := [b] + h.free)
  }

  // ------------------------------------------------------------------- one operation

  /** The cut point lies strictly inside one block, so it is not yet a boundary. */
  lemma CutIsNew(h: Heap, b: nat, cut: nat)
    requires Tiled(h) && b in h.size && b < cut < End(h, b)
    ensures cut !in h.size
  {
    assert Apart(h, b, cut);
  }

  lemma SplitMeets(h: Heap, k: nat, n: nat, c: nat)
    requires Inv(h) && k < |h.free| && n % 8 == 0 && h.size[h.free[k]] >= n + HEADER
    ensures Meets(Split(h, k, n), c)
  {
    CutIsNew(h, h.free[k], h.free[k] + HEADER + n);
    assert Meets(h, c) && Meets(h, h.free[k]);
  }

  lemma SplitApart(h: Heap, k: nat, n: nat, c: nat, d: nat)
    requires Inv(h) && k < |h.free| && n % 8 == 0 && h.size[h.free[k]] >= n + HEADER
    ensures Apart(Split(h, k, n), c, d)
  {
    var b := h.free[k];
    CutIsNew(h, b, b + HEADER + n);
    assert Apart(h, c, d) && Apart(h, b, d) && Apart(h, c, b) && Apart(h, b, c);
  }

  lemma SplitShaped(h: Heap, k: nat, n: nat, c: nat)
    requires Inv(h) && k < |h.free| && n % 8 == 0 && h.size[h.free[k]] >= n + HEADER
    requires c in Split(h, k, n).size
    ensures Shaped(Split(h, k, n), c)
  {
    assert Shaped(h, h.free[k]);
  }

  lemma SplitTiled(h: Heap, k: nat, n: nat)
    requires Inv(h) && k < |h.free| && n % 8 == 0 && h.size[h.free[k]] >= n + HEADER
    ensures Tiled(Split(h, k, n))
    ensures h.free[k] + HEADER + n !in h.size
  {
    var t := Split(h, k, n);
    CutIsNew(h, h.free[k], h.free[k] + HEADER + n);
    forall c | c in t.size ensures Shaped(t, c) { SplitShaped(h, k, n, c); }
    forall c ensures Meets(t, c) { SplitMeets(h, k, n, c); }
    forall c, d ensures Apart(t, c, d) { SplitApart(h, k, n, c, d); }
  }

  lemma SplitInv(h: Heap, k: nat, n: nat)
    requires Inv(h) && k < |h.free| && n % 8 == 0 && h.size[h.free[k]] >= n + HEADER
    ensures Inv(Split(h, k, n))
  {
    SplitTiled(h, k, n);
  }

  lemma UnlinkInv(h: Heap, k: nat)
    requires Inv(h) && k < |h.free|
    ensures Inv(Unlink(h, k)) && h.free[k] !in Unlink(h, k).free
  {
    var t := Unlink(h, k);
    forall c ensures Meets(t, c) { assert Meets(h, c); }
    forall c, d ensures Apart(t, c, d) { assert Apart(h, c, d); }
  }

  lemma AllocInv(h: Heap, n: nat)
    requires Inv(h) && n % 8 == 0
    ensures Inv(AllocAligned(h, n).0)
  {
    var k := FirstFit(h, n, 0);
    if k < |h.free| {
      if h.size[h.free[k]] >= n + HEADER + 8 { SplitInv(h, k, n); } else { UnlinkInv(h, k); }
    }
  }

  lemma FreeInv(h: Heap, b: nat)
    requires Inv(h) && Live(h, b)
    ensures Inv(Free(h, b))
  {
    var t := Free(h, b);
    forall c ensures Meets(t, c) { assert Meets(h, c); }
    forall c, d ensures Apart(t, c, d) { assert Apart(h, c, d); }
  }
}
