/**
 mm.c over one array of 32-bit words that holds headers, links and payloads together. The
 class keeps the abstract heap as a ghost field; every method is proved to move it exactly as
 HeapSpec says while leaving every live payload word alone.
 */
module HeapMemory {
  import opened HeapSpec
  import opened Options

  type Word = n: nat | n < TWO32

  /** The pointer stored for position i of the free list; past the end it is null. */
  function Link(base: nat, free: seq<nat>, i: nat): nat {
    if i < |free| then base + free[i] else 0
  }

  /** Index of the payload word w of the live block b. */
  ghost predicate InPayload(h: Heap, b: nat, w: nat) {
    Live(h, b) && b + HEADER <= 4 * w && 4 * w + 4 <= End(h, b)
  }

  ghost predicate SamePayloads(h: Heap, words: seq<Word>, after: seq<Word>) {
    && |words| == |after|
    && forall b: nat, w: nat {:trigger InPayload(h, b, w)} :: InPayload(h, b, w) ==> w < |words| && after[w] == words[w]
  }

  ghost predicate SizeAt(words: seq<Word>, h: Heap, b: nat) {
    b in h.size ==> b / 4 + 1 < |words| && words[b / 4] == h.size[b]
  }

  ghost predicate LinkAt(words: seq<Word>, base: nat, h: Heap, i: nat) {
    i < |h.free| ==> h.free[i] / 4 + 1 < |words| && words[h.free[i] / 4 + 1] == Link(base, h.free, i + 1)
  }

  /** The words say what the abstract heap says: sizes in every header, links in the free ones. */
  ghost predicate Represents(words: seq<Word>, base: nat, h: Heap) {
    && 4 * |words| == h.limit
    && (forall b {:trigger SizeAt(words, h, b)} :: SizeAt(words, h, b))
    && (forall i: nat {:trigger LinkAt(words, base, h, i)} :: LinkAt(words, base, h, i))
  }

  /** Headers followed from offset `at` by 8 + size until exactly the end of the heap. */
  ghost predicate WalkReachesEnd(words: seq<Word>, at: nat)
    decreases 4 * |words| - at
  {
    || at == 4 * |words|
    || (at % 4 == 0 && at + HEADER <= 4 * |words| && WalkReachesEnd(words, at + HEADER + words[at / 4]))
  }

  /** The headers met on that walk. */
  ghost function Walk(words: seq<Word>, at: nat): (s: set<nat>)
    decreases 4 * |words| - at
  {
    if at % 4 != 0 || at + HEADER > 4 * |words| then {}
    else {at} + Walk(words, at + HEADER + words[at / 4])
  }

  /** The blocks at or after offset `at`. */
  ghost function From(h: Heap, at: nat): set<nat> {
    set b | b in h.size && b >= at
  }

  lemma WordAligned(at: nat)
    requires at % 8 == 0
    ensures at % 4 == 0
  {
    assert at == 4 * (2 * (at / 8));
  }

  lemma {:induction false} WalkFrom(words: seq<Word>, base: nat, h: Heap, at: nat)
    requires Inv(h) && Represents(words, base, h) && (at in h.size || at == h.limit)
    ensures WalkReachesEnd(words, at) && Walk(words, at) == From(h, at)
    decreases h.limit - at
  {
    if at == h.limit {
      assert From(h, at) == {};
    } else {
      assert Meets(h, at) && SizeAt(words, h, at) && Shaped(h, at);
      WordAligned(at);
      forall c | c in h.size && at < c ensures End(h, at) <= c { assert Apart(h, at, c); }
      WalkFrom(words, base, h, End(h, at));
      assert From(h, at) == {at} + From(h, End(h, at));
    }
  }

  /** Read as memory, the heap is tiled: the walk from offset 0 ends exactly at the end and meets every block. */
  lemma MemoryIsTiled(words: seq<Word>, base: nat, h: Heap)
    requires Inv(h) && Represents(words, base, h)
    ensures WalkReachesEnd(words, 0) && Walk(words, 0) == h.size.Keys
  {
    WalkFrom(words, base, h, 0);
    assert From(h, 0) == h.size.Keys;
  }

  /** A header is two words, the size and then, in a free block, the pointer to the next free header or null. */
  lemma HeaderWordsAre(words: seq<Word>, base: nat, h: Heap, b: nat, i: nat)
    requires Represents(words, base, h)
    ensures b in h.size ==> b / 4 < |words| && words[b / 4] == h.size[b]
    ensures i < |h.free| && h.free[i] == b ==>
              b / 4 + 1 < |words| && words[b / 4 + 1] == if i + 1 < |h.free| then base + h.free[i + 1] else 0
  {
    assert SizeAt(words, h, b) && LinkAt(words, base, h, i);
  }

  // --------------------------------------------------------- what each header write does

  /** Header words and live payload words are different words. */
  lemma HeaderNotPayload(h: Heap, c: nat, b: nat, w: nat)
    requires Tiled(h) && c in h.size && InPayload(h, b, w)
    ensures w != c / 4 && w != c / 4 + 1
    ensures b != c ==> 4 * w < c || 4 * w >= End(h, c)
  {
    assert Apart(h, b, c) && Apart(h, c, b);
  }

  lemma PayloadWriteKeeps(words: seq<Word>, base: nat, h: Heap, b: nat, w: nat, v: Word)
    requires Inv(h) && Represents(words, base, h) && InPayload(h, b, w)
    ensures 0 <= w < |words| && Represents(words[w := v], base, h)
  {
    var after := words[w := v];
    forall c ensures SizeAt(after, h, c) {
      assert SizeAt(words, h, c);
      if c in h.size { HeaderNotPayload(h, c, b, w); }
    }
    forall i: nat ensures LinkAt(after, base, h, i) {
      assert LinkAt(words, base, h, i);
      if i < |h.free| { HeaderNotPayload(h, h.free[i], b, w); }
    }
  }

  /** The words mm_alloc leaves behind when it takes the k-th free block whole. */
  ghost function Unlinked(words: seq<Word>, h: Heap, k: nat, link: Word): seq<Word>
    requires k < |h.free| && (k > 0 ==> h.free[k - 1] / 4 + 1 < |words|)
  {
    if k > 0 then words[h.free[k - 1] / 4 + 1 := link] else words
  }

  /** Where block headers can be: at 8-byte steps, two words each. */
  lemma HeadersApart(h: Heap, b: nat, c: nat)
    requires Tiled(h) && b in h.size && c in h.size && b != c
    ensures b / 4 != c / 4 && b / 4 + 1 != c / 4 && b / 4 != c / 4 + 1
  {}

  lemma UnlinkedRepresents(words: seq<Word>, base: nat, h: Heap, k: nat)
    requires Inv(h) && Represents(words, base, h) && k < |h.free| && base + h.limit < TWO32
    ensures k > 0 ==> LinkAt(words, base, h, k - 1)
    ensures Represents(Unlinked(words, h, k, Link(base, h.free, k + 1)), base, Unlink(h, k))
  {
    assert k > 0 ==> LinkAt(words, base, h, k - 1);
    var t := Unlink(h, k);
    var after := Unlinked(words, h, k, Link(base, h.free, k + 1));
    forall c ensures SizeAt(after, t, c) {
      assert SizeAt(words, h, c);
      if k > 0 && c in h.size && c != h.free[k - 1] { HeadersApart(h, c, h.free[k - 1]); }
    }
    forall i: nat ensures LinkAt(after, base, t, i) {
      if i < |t.free| {
        var j := if i < k then i else i + 1;
        assert t.free[i] == h.free[j] && LinkAt(words, base, h, j);
        if k > 0 && i != k - 1 { HeadersApart(h, h.free[j], h.free[k - 1]); }
      }
    }
  }

  ghost predicate CanCut(words: seq<Word>, base: nat, h: Heap, k: nat, n: nat) {
    && Inv(h) && Represents(words, base, h) && base + h.limit < TWO32
    && k < |h.free| && n % 8 == 0 && h.size[h.free[k]] >= n + HEADER + 8
  }

  lemma Multiples(b: nat, n: nat)
    requires b % 8 == 0 && n % 8 == 0
    ensures (b + HEADER + n) % 8 == 0
  {}

  lemma HeaderInBounds(b: nat, count: nat)
    requires b % 8 == 0 && b + HEADER <= 4 * count
    ensures b / 4 + 1 < count
  {
    HeaderWords(b);
  }

  /** Where a split writes: inside the array, with the new header in the old payload. */
  lemma CutInBounds(words: seq<Word>, base: nat, h: Heap, k: nat, n: nat)
    requires CanCut(words, base, h, k, n)
    ensures var b := h.free[k]; var rest := b + HEADER + n;
            && b % 8 == 0 && rest % 8 == 0 && b < rest && rest + HEADER < End(h, b) <= h.limit
            && b / 4 + 1 < |words| && rest / 4 + 1 < |words| && rest !in h.size
            && (k > 0 ==> h.free[k - 1] / 4 + 1 < |words|)
  {
    var b := h.free[k];
    assert Shaped(h, b);
    assert k > 0 ==> LinkAt(words, base, h, k - 1);
    CutIsNew(h, b, b + HEADER + n);
    Multiples(b, n);
    HeaderInBounds(b, |words|);
    HeaderInBounds(b + HEADER + n, |words|);
  }

  /** The words mm_alloc leaves behind when it splits the k-th free block after n bytes. */
  ghost function Cut(words: seq<Word>, base: nat, h: Heap, k: nat, n: nat): seq<Word>
    requires CanCut(words, base, h, k, n)
  {
    CutInBounds(words, base, h, k, n);
    var b := h.free[k];
    var rest := b + HEADER + n;
    var words := words[rest / 4 := h.size[b] - n - HEADER][rest / 4 + 1 := Link(base, h.free, k + 1)][b / 4 := n];
    Unlinked(words, h, k, base + rest)
  }

  lemma CutSize(words: seq<Word>, base: nat, h: Heap, k: nat, n: nat, c: nat)
    requires CanCut(words, base, h, k, n)
    ensures SizeAt(Cut(words, base, h, k, n), Split(h, k, n), c)
  {
    CutInBounds(words, base, h, k, n);
    SplitTiled(h, k, n);
    var b, t := h.free[k], Split(h, k, n);
    var rest := b + HEADER + n;
    if c in t.size {
      assert SizeAt(words, h, c);
      if k > 0 && c != h.free[k - 1] { HeadersApart(t, c, h.free[k - 1]); }
      if c != rest { HeadersApart(t, c, rest); }
      if c != b { HeadersApart(t, c, b); }
    }
  }

  /** The link word of a free block other than the k-th is touched only if it precedes the k-th. */
  lemma CutLinkWord(words: seq<Word>, base: nat, h: Heap, k: nat, n: nat, c: nat)
    requires CanCut(words, base, h, k, n) && c in h.free && c != h.free[k] && (k > 0 ==> c != h.free[k - 1])
    ensures 0 <= c / 4 + 1 < |words| && Cut(words, base, h, k, n)[c / 4 + 1] == words[c / 4 + 1]
  {
    CutInBounds(words, base, h, k, n);
    SplitTiled(h, k, n);
    var t := Split(h, k, n);
    assert SizeAt(words, h, c);
    HeadersApart(t, c, h.free[k]);
    HeadersApart(t, c, h.free[k] + HEADER + n);
    if k > 0 { HeadersApart(t, c, h.free[k - 1]); }
  }

  lemma CutLink(words: seq<Word>, base: nat, h: Heap, k: nat, n: nat, i: nat)
    requires CanCut(words, base, h, k, n)
    ensures LinkAt(Cut(words, base, h, k, n), base, Split(h, k, n), i)
  {
    CutInBounds(words, base, h, k, n);
    if i == k {
      SplitTiled(h, k, n);
      if k > 0 { HeadersApart(Split(h, k, n), h.free[k] + HEADER + n, h.free[k - 1]); }
    } else if i < |h.free| {
      assert LinkAt(words, base, h, i);
      if i + 1 != k { CutLinkWord(words, base, h, k, n, h.free[i]); }
    }
  }

  lemma CutRepresents(words: seq<Word>, base: nat, h: Heap, k: nat, n: nat)
    requires CanCut(words, base, h, k, n)
    ensures Represents(Cut(words, base, h, k, n), base, Split(h, k, n))
  {
    forall c ensures SizeAt(Cut(words, base, h, k, n), Split(h, k, n), c) { CutSize(words, base, h, k, n, c); }
    forall i: nat ensures LinkAt(Cut(words, base, h, k, n), base, Split(h, k, n), i) {
      CutLink(words, base, h, k, n, i);
    }
  }

  /** No word a split writes lies in a live payload. */
  lemma CutSparesPayloads(words: seq<Word>, base: nat, h: Heap, k: nat, n: nat)
    requires CanCut(words, base, h, k, n)
    ensures SamePayloads(h, words, Cut(words, base, h, k, n))
  {
    CutInBounds(words, base, h, k, n);
    forall b: nat, w: nat | InPayload(h, b, w) ensures w < |words| && Cut(words, base, h, k, n)[w] == words[w] {
      assert Shaped(h, b);
      HeaderNotPayload(h, h.free[k], b, w);
      if k > 0 { HeaderNotPayload(h, h.free[k - 1], b, w); }
    }
  }

  /** All a split keeps. */
  lemma CutKeeps(words: seq<Word>, base: nat, h: Heap, k: nat, n: nat)
    requires CanCut(words, base, h, k, n)
    ensures var after, t := Cut(words, base, h, k, n), Split(h, k, n);
            Inv(t) && Represents(after, base, t) && SamePayloads(h, words, after)
  {
    CutRepresents(words, base, h, k, n);
    SplitInv(h, k, n);
    CutSparesPayloads(words, base, h, k, n);
  }

  /** Nor does rewriting the link of any block. */
  lemma LinkSparesPayloads(words: seq<Word>, h: Heap, c: nat, link: Word)
    requires Tiled(h) && 4 * |words| == h.limit && c in h.size && c / 4 + 1 < |words|
    ensures SamePayloads(h, words, words[c / 4 + 1 := link])
  {
    forall b: nat, w: nat | InPayload(h, b, w) ensures w < |words| && words[c / 4 + 1 := link][w] == words[w] {
      assert Shaped(h, b);
      HeaderNotPayload(h, c, b, w);
    }
  }

  /** Word indices of an 8-aligned header. */
  lemma HeaderWords(b: nat)
    requires b % 8 == 0
    ensures 4 * (b / 4) == b && (b + 4) / 4 == b / 4 + 1
  {
    var q := b / 8;
    assert b == 8 * q && b / 4 == 2 * q;
  }

  // -------------------------------------------------------------------- mm.c itself

  class Allocator {
    const base: nat
    const mem: array<Word>
    var freeList: Word
    ghost var heap: Heap

    ghost predicate Valid()
      reads this, mem
    {
      && 8 <= base && base % 8 == 0 && base + heap.limit < TWO32
      && Inv(heap) && Represents(mem[..], base, heap)
      && freeList == Link(base, heap.free, 0)
    }

    /** mm_init on a heap of `limit` bytes placed at the 8-aligned address `at`; the memory starts arbitrary. */
    constructor (at: nat, limit: nat)
      requires at >= 8 && at % 8 == 0 && HEADER <= limit && limit % 8 == 0 && at + limit < TWO32
      ensures Valid() && heap == Fresh(limit) && base == at && fresh(mem)
    {
      base := at;
      mem := new Word[limit / 4];
      freeList := at;
      heap := Fresh(limit);
      new;
      mem[0] := limit - HEADER;
      mem[1] := 0;
    }

    /** The word at a heap address. */
    function At(address: nat): Word
      requires base <= address && (address - base) / 4 < mem.Length
      reads mem
    {
      mem[(address - base) / 4]
    }

    /** Every client word that was live before a call still holds its value. */
    twostate predicate PayloadsKept()
      reads this, mem
    {
      SamePayloads(old(heap), old(mem[..]), mem[..])
    }

    /** The first-fit loop of mm_alloc. */
    method Find(size: Word) returns (prev: Word, curr: Word, ghost k: nat)
      requires Valid()
      ensures k == FirstFit(heap, size, 0)
      ensures curr == Link(base, heap.free, k)
      ensures prev == if k == 0 then 0 else base + heap.free[k - 1]
    {
      prev, curr, k := 0, freeList, 0;
      while curr != 0
        invariant k <= |heap.free| && curr == Link(base, heap.free, k)
        invariant prev == if k == 0 then 0 else base + heap.free[k - 1]
        invariant FirstFit(heap, size, 0) == FirstFit(heap, size, k)
        decreases |heap.free| - k
      {
        assert SizeAt(mem[..], heap, heap.free[k]) && LinkAt(mem[..], base, heap, k);
        if At(curr) >= size {
          return;
        }
        prev := curr;
        curr := At(curr + 4);
        k := k + 1;
      }
    }

    /** One word store through a pointer: word `i` is the one at `address`. */
    method Put(address: nat, v: Word, ghost i: nat)
      requires address == base + 4 * i && i < mem.Length
      modifies mem
      ensures mem[..] == old(mem[..])[i := v]
    {
      assert (address - base) / 4 == i;
      mem[(address - base) / 4] := v;
    }

    /** The stores of the splitting branch, in program order: blocks at offsets b and p (the predecessor). */
    method WriteSplit(prev: Word, curr: Word, size: Word, ghost b: nat, ghost p: nat)
      requires curr == base + b && b % 8 == 0 && size % 8 == 0 && base + 4 * mem.Length < TWO32
      requires (b + HEADER + size) / 4 + 1 < mem.Length && mem[b / 4] >= size + HEADER
      requires prev != 0 ==> prev == base + p && p % 8 == 0 && p / 4 + 1 < mem.Length
      modifies this`freeList, mem
      ensures freeList == if prev != 0 then old(freeList) else base + b + HEADER + size
      ensures var words, rest := old(mem[..]), b + HEADER + size;
              var words1 := words[rest / 4 := words[b / 4] - size - HEADER]
                                 [rest / 4 + 1 := words[b / 4 + 1]][b / 4 := size];
              mem[..] == if prev != 0 then words1[p / 4 + 1 := base + rest] else words1
    {
      ghost var rest := b + HEADER + size;
      HeaderWords(b);
      HeaderWords(rest);
      if prev != 0 { HeaderWords(p); }
      var currSize, currNext := At(curr), At(curr + 4);
      var newBlock := curr + HEADER + size;
      Put(newBlock, currSize - size - HEADER, rest / 4);
      Put(newBlock + 4, currNext, rest / 4 + 1);
      Put(curr, size, b / 4);
      if prev != 0 {
        Put(prev + 4, newBlock, p / 4 + 1);
      } else {
        freeList := newBlock;
      }
    }

    method SplitBlock(prev: Word, curr: Word, size: Word, ghost k: nat)
      requires Valid() && CanCut(mem[..], base, heap, k, size) && curr == base + heap.free[k]
      requires prev == if k == 0 then 0 else base + heap.free[k - 1]
      modifies this`freeList, this`heap, mem
      ensures Valid() && heap == Split(old(heap), k, size) && PayloadsKept()
    {
      ghost var words: seq<Word>, h, b := mem[..], heap, heap.free[k];
      ghost var p := if k == 0 then 0 else h.free[k - 1];
      CutInBounds(words, base, h, k, size);
      assert SizeAt(words, h, b) && LinkAt(words, base, h, k);
      assert k > 0 ==> Shaped(h, p);
      WriteSplit(prev, curr, size, b, p);
      assert mem[..] == Cut(words, base, h, k, size);
      heap := Split(h, k, size);
      CutKeeps(words, base, h, k, size);
    }

    method UnlinkBlock(prev: Word, curr: Word, ghost k: nat)
      requires Valid() && k < |heap.free| && curr == base + heap.free[k]
      requires prev == if k == 0 then 0 else base + heap.free[k - 1]
      modifies this`freeList, this`heap, mem
      ensures Valid() && heap == Unlink(old(heap), k) && PayloadsKept()
    {
      ghost var words: seq<Word>, h := mem[..], heap;
      assert SizeAt(words, h, h.free[k]) && LinkAt(words, base, h, k);
      assert k > 0 ==> LinkAt(words, base, h, k - 1);
      if prev != 0 {
        mem[(prev + 4 - base) / 4] := At(curr + 4);
      } else {
        freeList := At(curr + 4);
      }
      heap := Unlink(h, k);
      assert mem[..] == Unlinked(words, h, k, Link(base, h.free, k + 1));
      UnlinkedRepresents(words, base, h, k);
      UnlinkInv(h, k);
      if k > 0 { LinkSparesPayloads(words, h, h.free[k - 1], Link(base, h.free, k + 1)); }
    }

    /** mm_alloc: the address returned is the payload of the block HeapSpec picks, or null. */
    method MmAlloc(request: Size) returns (pointer: Word)
      requires Valid()
      modifies this`freeList, this`heap, mem
      ensures Valid() && PayloadsKept()
      ensures var (t, r) := Alloc(old(heap), request);
              heap == t && pointer == if r.Some? then base + r.value + 8 else 0
    {
      var size := Aligned(request);
      var prev, curr, k := Find(size);
      if curr == 0 {
        return 0;
      }
      assert SizeAt(mem[..], heap, heap.free[k]) && Shaped(heap, heap.free[k]);
      assert size + HEADER + 8 < TWO32; // so the sum below does not wrap
      if At(curr) >= size + HEADER + 8 {
        assert CanCut(mem[..], base, heap, k, size);
        SplitBlock(prev, curr, size, k);
      } else {
        UnlinkBlock(prev, curr, k);
      }
      return curr + HEADER;
    }

    /** mm_free of null does nothing; otherwise the block goes to the front of the list. */
    method MmFree(pointer: Word)
      requires Valid()
      requires pointer != 0 ==> pointer >= base + HEADER && Live(heap, pointer - base - HEADER)
      modifies this`freeList, this`heap, mem
      ensures Valid() && PayloadsKept()
      ensures heap == if pointer == 0 then old(heap) else Free(old(heap), pointer - base - HEADER)
    {
      if pointer == 0 {
        return;
      }
      ghost var words: seq<Word>, h := mem[..], heap;
      var block := pointer - HEADER;
      ghost var b := block - base;
      assert SizeAt(words, h, b) && Shaped(h, b);
      mem[(block + 4 - base) / 4] := freeList;
      freeList := block;
      heap := Free(h, b);
      FreeInv(h, b);
      FreedRepresents(words, base, h, b);
      assert mem[..] == words[b / 4 + 1 := Link(base, h.free, 0)];
      LinkSparesPayloads(words, h, b, Link(base, h.free, 0));
    }

    /** A client store through a pointer into the payload of live block b: word w. */
    method Store(address: nat, v: Word, ghost b: nat, ghost w: nat)
      requires Valid() && InPayload(heap, b, w) && address == base + 4 * w
      modifies mem
      ensures Valid() && w < mem.Length && mem[..] == old(mem[..])[w := v]
    {
      assert Shaped(heap, b);
      PayloadWriteKeeps(mem[..], base, heap, b, w, v);
      Put(address, v, w);
    }
  }

  /** Payload addresses are 8-aligned, and no block reaches past the 32-bit address space. */
  lemma PayloadsAligned(a: Allocator, b: nat)
    requires a.Valid() && Live(a.heap, b)
    ensures (a.base + b + HEADER) % 8 == 0 && a.base + End(a.heap, b) < TWO32
  {
    assert Shaped(a.heap, b);
  }

  lemma FreedRepresents(words: seq<Word>, base: nat, h: Heap, b: nat)
    requires Inv(h) && Represents(words, base, h) && Live(h, b) && base + h.limit < TWO32
    ensures b / 4 + 1 < |words| && Represents(words[b / 4 + 1 := Link(base, h.free, 0)], base, Free(h, b))
  {
    assert SizeAt(words, h, b);
    var after, t := words[b / 4 + 1 := Link(base, h.free, 0)], Free(h, b);
    forall c ensures SizeAt(after, t, c) {
      assert SizeAt(words, h, c);
      if c in h.size && c != b { HeadersApart(h, c, b); }
    }
    forall i: nat ensures LinkAt(after, base, t, i) {
      if 0 < i < |t.free| {
        assert LinkAt(words, base, h, i - 1);
        HeadersApart(h, h.free[i - 1], b);
      }
    }
  }
}
