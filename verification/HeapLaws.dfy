/** What the allocator promises over any sequence of allocations and valid frees. */
module HeapLaws {
  import opened HeapSpec
  import opened Options

  // -------------------------------------------------------------------- one call

  lemma {:induction false} FirstFitIsFirst(h: Heap, n: nat, i: nat, k: nat)
    requires FreeListOk(h) && i <= k <= |h.free|
    requires forall j :: i <= j < k ==> h.size[h.free[j]] < n
    requires k < |h.free| ==> h.size[h.free[k]] >= n
    ensures FirstFit(h, n, i) == k
    decreases k - i
  {
    if i < k { FirstFitIsFirst(h, n, i + 1, k); }
  }

  /** mm_alloc succeeds exactly when some free block is large enough, and takes the first such. */
  lemma AllocTakesFirstFit(h: Heap, request: Size)
    requires Inv(h)
    ensures var n := Aligned(request); var (_, r) := Alloc(h, request);
            && (r.Some? <==> exists i :: 0 <= i < |h.free| && h.size[h.free[i]] >= n)
            && (r.Some? ==> exists k :: 0 <= k < |h.free| && r.value == h.free[k] && h.size[h.free[k]] >= n
                                        && forall j :: 0 <= j < k ==> h.size[h.free[j]] < n)
            && (r.None? ==> Alloc(h, request).0 == h)
  {}

  /** The block handed out is live, at most 8 bytes over the aligned request, and the only new one. */
  lemma AllocGivesBlock(h: Heap, request: Size)
    requires Inv(h) && Alloc(h, request).1.Some?
    ensures var n := Aligned(request); var (t, r) := Alloc(h, request); var b := r.value;
            && Inv(t) && !Live(h, b) && Live(t, b)
            && n <= t.size[b] <= n + 8
            && (forall c :: c != b ==> (Live(t, c) <==> Live(h, c)))
            && (forall c :: Live(h, c) ==> t.size[c] == h.size[c])
  {
    var n := Aligned(request);
    var k := FirstFit(h, n, 0);
    AllocInv(h, n);
    if h.size[h.free[k]] >= n + HEADER + 8 { SplitLive(h, k, n); } else { UnlinkLive(h, k); }
  }

  lemma SplitLive(h: Heap, k: nat, n: nat)
    requires Inv(h) && k < |h.free| && n % 8 == 0 && h.size[h.free[k]] >= n + HEADER
    ensures h.free[k] + HEADER + n !in h.size
    ensures var t := Split(h, k, n); Live(t, h.free[k]) && forall c :: c != h.free[k] ==> (Live(t, c) <==> Live(h, c))
  {
    var b, t := h.free[k], Split(h, k, n);
    CutIsNew(h, b, b + HEADER + n);
    assert t.free[k] == b + HEADER + n;
    forall c | c != b ensures Live(t, c) <==> Live(h, c) {
      if c in h.free {
        var i :| 0 <= i < |h.free| && h.free[i] == c;
        assert t.free[i] == c;
      }
    }
  }

  lemma UnlinkLive(h: Heap, k: nat)
    requires Inv(h) && k < |h.free|
    ensures var t := Unlink(h, k); Live(t, h.free[k]) && forall c :: c != h.free[k] ==> (Live(t, c) <==> Live(h, c))
  {
    var b, t := h.free[k], Unlink(h, k);
    UnlinkInv(h, k);
    forall c | c != b ensures Live(t, c) <==> Live(h, c) {
      if c in h.free {
        var i :| 0 <= i < |h.free| && h.free[i] == c;
        assert t.free[if i < k then i else i - 1] == c;
      }
    }
  }

  lemma AllocSize(h: Heap, request: Size)
    requires Inv(h) && Alloc(h, request).1.Some?
    ensures var n := Aligned(request); var (t, r) := Alloc(h, request);
            r.value in t.size && n <= t.size[r.value] <= n + 8
  {
    var n := Aligned(request);
    var k := FirstFit(h, n, 0);
    assert Shaped(h, h.free[k]);
  }

  /** The free list keeps its order: the block taken leaves it, or its remainder stands in its place. */
  lemma AllocKeepsOrder(h: Heap, request: Size)
    requires Inv(h) && Alloc(h, request).1.Some?
    ensures var n := Aligned(request); var (t, r) := Alloc(h, request); var b := r.value;
            exists k :: 0 <= k < |h.free| && h.free[k] == b
                        && (if h.size[b] >= n + 16
                            then t.free == h.free[..k] + [b + 8 + n] + h.free[k + 1..]
                                 && t.size == h.size[b := n][b + 8 + n := h.size[b] - n - 8]
                            else t.free == h.free[..k] + h.free[k + 1..] && t.size == h.size)
  {
    var k := FirstFit(h, Aligned(request), 0);
    assert h.free[k := h.free[k] + 8 + Aligned(request)]
           == h.free[..k] + [h.free[k] + 8 + Aligned(request)] + h.free[k + 1..];
    assert h.free[k] == Alloc(h, request).1.value;
  }

  /** The block holds what was asked for exactly when the size computation did not wrap. */
  lemma AllocHoldsRequest(h: Heap, request: Size)
    requires Inv(h) && Alloc(h, request).1.Some?
    ensures var (t, r) := Alloc(h, request);
            r.value in t.size && (request <= TWO32 - 8 ==> t.size[r.value] >= request)
            && (request > TWO32 - 8 ==> t.size[r.value] <= 8)
  {
    AllocSize(h, request);
  }

  /** At 2^32 - 1 it wraps: a fresh 512 KB heap answers with a block of no bytes at all. */
  lemma WrappedRequest()
    ensures var (t, r) := Alloc(Fresh(524288), 0xFFFF_FFFF); r == Some(0) && 0 in t.size && t.size[0] == 0
  {
    assert Aligned(0xFFFF_FFFF) == 0;
    FirstFitIsFirst(Fresh(524288), 0, 0, 0);
  }

  lemma FreeTakesBlock(h: Heap, b: nat)
    requires Inv(h) && Live(h, b)
    ensures var t := Free(h, b);
            && Inv(t) && t.size == h.size && !Live(t, b)
            && (forall c :: c != b ==> (Live(t, c) <==> Live(h, c)))
  {
    FreeInv(h, b);
    var t := Free(h, b);
    forall c | c != b ensures Live(t, c) <==> Live(h, c) {
      if c in h.free {
        var i :| 0 <= i < |h.free| && h.free[i] == c;
        assert t.free[i + 1] == c;
      }
    }
  }

  /** A block just freed is the first choice for any request that fits it. */
  lemma FreeThenAllocReuses(h: Heap, b: nat, request: Size)
    requires Inv(h) && Live(h, b) && h.size[b] >= Aligned(request)
    ensures Inv(Free(h, b)) && Alloc(Free(h, b), request).1 == Some(b)
  {
    FreeInv(h, b);
    FirstFitIsFirst(Free(h, b), Aligned(request), 0, 0);
  }

  // ------------------------------------------------------------------------- runs

  datatype Op = AllocOp(request: Size) | FreeOp(block: nat)

  ghost predicate Allowed(h: Heap, op: Op) {
    op.FreeOp? ==> Live(h, op.block)
  }

  function Step(h: Heap, op: Op): Heap
    requires FreeListOk(h)
  {
    match op
    case AllocOp(request) => Alloc(h, request).0
    case FreeOp(block) => Free(h, block)
  }

  ghost predicate AllowedRun(h: Heap, ops: seq<Op>)
    requires Inv(h)
    decreases |ops|
  {
    ops == [] || (Allowed(h, ops[0]) && (StepKeepsInv(h, ops[0]); AllowedRun(Step(h, ops[0]), ops[1..])))
  }

  ghost function Run(h: Heap, ops: seq<Op>): Heap
    requires Inv(h) && AllowedRun(h, ops)
    decreases |ops|
  {
    if ops == [] then h
    else (StepKeepsInv(h, ops[0]); Run(Step(h, ops[0]), ops[1..]))
  }

  lemma StepKeepsInv(h: Heap, op: Op)
    requires Inv(h) && Allowed(h, op)
    ensures Inv(Step(h, op)) && Step(h, op).limit == h.limit
  {
    match op
    case AllocOp(request) => AllocInv(h, Aligned(request));
    case FreeOp(block) => FreeInv(h, block);
  }

  lemma {:induction false} RunKeepsInv(h: Heap, ops: seq<Op>)
    requires Inv(h) && AllowedRun(h, ops)
    ensures Inv(Run(h, ops)) && Run(h, ops).limit == h.limit
    decreases |ops|
  {
    if ops != [] {
      StepKeepsInv(h, ops[0]);
      RunKeepsInv(Step(h, ops[0]), ops[1..]);
    }
  }

  /** After any run from mm_init, distinct live payloads are 8-aligned, disjoint and inside the heap. */
  lemma PayloadsSafe(limit: nat, ops: seq<Op>, a: nat, b: nat)
    requires limit >= HEADER && limit % 8 == 0 && AllowedRun(Fresh(limit), ops)
    requires var h := Run(Fresh(limit), ops); Live(h, a) && Live(h, b) && a < b
    ensures var h := Run(Fresh(limit), ops);
            (a + 8) % 8 == 0 && a + 8 + h.size[a] <= b && b + 8 + h.size[b] <= limit
  {
    RunKeepsInv(Fresh(limit), ops);
    LiveApart(Run(Fresh(limit), ops), a, b);
  }

  lemma LiveApart(h: Heap, a: nat, b: nat)
    requires Tiled(h) && a in h.size && b in h.size && a < b
    ensures (a + HEADER) % 8 == 0 && End(h, a) <= b && End(h, b) <= h.limit
  {
    assert Apart(h, a, b) && Shaped(h, a);
  }

  // -------------------------------------------------------------- the no-coalescing law

  /** `t` is `h` cut further: every block of t lies inside one block of h, and no boundary is lost. */
  ghost predicate Refines(t: Heap, h: Heap) {
    && h.size.Keys <= t.size.Keys
    && forall c {:trigger Nested(t, c, h)} :: c in t.size ==> Nested(t, c, h)
  }

  ghost predicate Nested(t: Heap, c: nat, h: Heap) {
    exists b :: Inside(t, c, h, b)
  }

  ghost predicate Inside(t: Heap, c: nat, h: Heap, b: nat) {
    c in t.size && b in h.size && b <= c && End(t, c) <= End(h, b)
  }

  lemma RefinesSelf(h: Heap)
    ensures Refines(h, h)
  {
    forall c | c in h.size ensures Nested(h, c, h) { assert Inside(h, c, h, c); }
  }

  lemma RefinesTrans(u: Heap, t: Heap, h: Heap)
    requires Refines(u, t) && Refines(t, h)
    ensures Refines(u, h)
  {
    forall c | c in u.size ensures Nested(u, c, h) {
      assert Nested(u, c, t);
      var d :| Inside(u, c, t, d);
      assert Nested(t, d, h);
      var b :| Inside(t, d, h, b);
      assert Inside(u, c, h, b);
    }
  }

  lemma StepRefines(h: Heap, op: Op)
    requires Inv(h) && Allowed(h, op)
    ensures Refines(Step(h, op), h)
  {
    var t := Step(h, op);
    if op.AllocOp? {
      var n := Aligned(op.request);
      var k := FirstFit(h, n, 0);
      if k < |h.free| && h.size[h.free[k]] >= n + HEADER + 8 { CutIsNew(h, h.free[k], h.free[k] + HEADER + n); }
    }
    forall c | c in t.size ensures Nested(t, c, h) {
      if c in h.size {
        assert Inside(t, c, h, c);
      } else {
        var k := FirstFit(h, Aligned(op.request), 0);
        assert Inside(t, c, h, h.free[k]);
      }
    }
  }

  /** Blocks are never merged, over any run. */
  lemma {:induction false} RunRefines(h: Heap, ops: seq<Op>)
    requires Inv(h) && AllowedRun(h, ops)
    ensures Refines(Run(h, ops), h)
    decreases |ops|
  {
    if ops == [] {
      RefinesSelf(h);
    } else {
      StepRefines(h, ops[0]);
      StepKeepsInv(h, ops[0]);
      RunRefines(Step(h, ops[0]), ops[1..]);
      RefinesTrans(Run(h, ops), Step(h, ops[0]), h);
    }
  }

  /** Hence once no block holds n bytes, no sequence of frees makes a request for n succeed. */
  lemma LargestNeverGrows(h: Heap, ops: seq<Op>, request: Size)
    requires Inv(h) && AllowedRun(h, ops)
    requires forall b :: b in h.size ==> h.size[b] < Aligned(request)
    ensures Inv(Run(h, ops)) && Alloc(Run(h, ops), request).1 == None
  {
    RunKeepsInv(h, ops);
    RunRefines(h, ops);
    var t := Run(h, ops);
    AllocTakesFirstFit(t, request);
    forall i | 0 <= i < |t.free| ensures t.size[t.free[i]] < Aligned(request) {
      assert Nested(t, t.free[i], h);
      var b :| Inside(t, t.free[i], h, b);
    }
  }

  /** A boundary, once made, is never covered by a later block. */
  lemma BoundaryPersists(h: Heap, ops: seq<Op>, boundary: nat, c: nat)
    requires Inv(h) && AllowedRun(h, ops) && boundary in h.size && c in Run(h, ops).size
    ensures boundary <= c || End(Run(h, ops), c) <= boundary
  {
    RunKeepsInv(h, ops);
    RunRefines(h, ops);
    assert Apart(Run(h, ops), c, boundary);
  }

  /** Allocating a little and freeing it again leaves all memory free, yet the whole heap is gone for good. */
  lemma WholeHeapLost(limit: nat, request: Size)
    requires limit % 8 == 0 && 32 <= limit < TWO32 && 0 < request <= limit - 32
    ensures var h := Fresh(limit); var (t, r) := Alloc(h, request);
            && Alloc(h, limit - HEADER).1.Some?
            && r == Some(0) && Live(t, 0)
            && (forall b :: !Live(Free(t, 0), b))
            && Alloc(Free(t, 0), limit - HEADER).1 == None
  {
    var h := Fresh(limit);
    var (t, r) := Alloc(h, request);
    FirstFitIsFirst(h, Aligned(limit - HEADER), 0, 0);
    FirstFitIsFirst(h, Aligned(request), 0, 0);
    AllocGivesBlock(h, request);
    FreeTakesBlock(t, 0);
    var u := Free(t, 0);
    assert t.size.Keys == {0, HEADER + Aligned(request)};
    assert u.free == [0, HEADER + Aligned(request)];
    FirstFitIsFirst(u, Aligned(limit - HEADER), 0, 2);
  }
}
