/**
 proc.c over the allocator: process records are 14 words inside heap payloads, chained through
 their last word. The class keeps the list as a ghost value and proves that memory agrees.
 */
module ProcTable {
  import opened HeapSpec
  import opened Options
  import opened HeapLaws
  import opened HeapMemory
  import opened ProcSpec

  // Word positions inside process_t.
  const PID := 0
  const STATE := 1
  const EIP := 2
  const ESP := 3
  const EBP := 4
  const EFLAGS := 11
  const NEXT := 13

  function StateCode(s: ProcState): Word {
    match s
    case Running => 0
    case Ready => 1
    case Waiting => 2
    case Terminated => 3
  }

  /** Word index of field `f` of the record in block b. */
  function Field(b: nat, f: nat): nat {
    (b + HEADER) / 4 + f
  }

  /** proc->context after proc_create: both stack registers at the top, zeros, interrupts enabled, no successor. */
  ghost function WithContext(words: seq<Word>, b: nat, top: Word): seq<Word>
    requires Field(b, NEXT) < |words|
  {
    words[Field(b, ESP) := top][Field(b, EBP) := top]
         [Field(b, 5) := 0][Field(b, 6) := 0][Field(b, 7) := 0][Field(b, 8) := 0][Field(b, 9) := 0][Field(b, 10) := 0]
         [Field(b, EFLAGS) := 0x202][Field(b, 12) := 0][Field(b, NEXT) := 0]
  }

  /** Stack and frame pointer at `top`, interrupts enabled, the other registers and the page directory null. */
  ghost predicate ContextAt(words: seq<Word>, b: nat, top: nat) {
    && Field(b, NEXT) < |words|
    && words[Field(b, ESP)] == top && words[Field(b, EBP)] == top && words[Field(b, EFLAGS)] == 0x202
    && forall f: nat {:trigger Field(b, f)} :: 5 <= f <= 12 && f != EFLAGS ==> words[Field(b, f)] == 0
  }

  /** The fields proc_create writes before it asks for a stack. */
  ghost predicate Named(words: seq<Word>, b: nat, pid: nat, state: ProcState, entry: nat) {
    && Field(b, NEXT) < |words| && words[Field(b, PID)] == pid
    && words[Field(b, STATE)] == StateCode(state) && words[Field(b, EIP)] == entry
  }

  lemma ContextWritten(words: seq<Word>, b: nat, top: Word)
    requires Field(b, NEXT) < |words|
    ensures var after := WithContext(words, b, top);
            && ContextAt(after, b, top) && after[Field(b, NEXT)] == 0
            && forall pid: nat, state, entry: nat {:trigger Named(after, b, pid, state, entry)} ::
                 Named(words, b, pid, state, entry) ==> Named(after, b, pid, state, entry)
  {}

  /** The address stored in pointers to the i-th process; null past the end. */
  function Pointer(base: nat, procs: seq<Proc>, i: nat): nat {
    if i < |procs| then base + procs[i].record + HEADER else 0
  }

  /** Both blocks of a process are live and large enough, and distinct. */
  ghost predicate Housed(h: Heap, p: Proc) {
    && Live(h, p.record) && h.size[p.record] >= RECORD_SIZE
    && Live(h, p.stack) && h.size[p.stack] >= STACK_SIZE
    && p.record != p.stack
  }

  /** The record words say what the process value says; its context is as proc_create leaves it. */
  ghost predicate Recorded(words: seq<Word>, base: nat, p: Proc) {
    && Named(words, p.record, p.pid, p.state, p.entry)
    && ContextAt(words, p.record, base + p.stack + HEADER + STACK_SIZE)
  }

  ghost predicate LinkedTo(words: seq<Word>, base: nat, procs: seq<Proc>, i: nat)
    requires i < |procs|
  {
    Field(procs[i].record, NEXT) < |words| && words[Field(procs[i].record, NEXT)] == Pointer(base, procs, i + 1)
  }

  /** process_t word by word: what a listed process leaves in memory. */
  lemma RecordWords(words: seq<Word>, base: nat, procs: seq<Proc>, i: nat)
    requires ListInMemory(words, base, procs) && i < |procs|
    ensures var p, w := procs[i], (procs[i].record + 8) / 4;
            && w + 13 < |words| && words[w] == p.pid
            && words[w + 1] == (match p.state case Running => 0 case Ready => 1 case Waiting => 2 case Terminated => 3)
            && words[w + 2] == p.entry && words[w + 3] == words[w + 4] == base + p.stack + 8 + 4096
            && (forall j :: w + 5 <= j <= w + 10 ==> words[j] == 0) && words[w + 11] == 0x202 && words[w + 12] == 0
            && words[w + 13] == if i + 1 < |procs| then base + procs[i + 1].record + 8 else 0
  {
    assert Recorded(words, base, procs[i]) && LinkedTo(words, base, procs, i);
    forall j | (procs[i].record + 8) / 4 + 5 <= j <= (procs[i].record + 8) / 4 + 10 ensures words[j] == 0 {
      assert words[Field(procs[i].record, j - (procs[i].record + 8) / 4)] == 0;
    }
    assert words[Field(procs[i].record, 12)] == 0;
  }

  ghost predicate ListInMemory(words: seq<Word>, base: nat, procs: seq<Proc>) {
    && (forall i :: 0 <= i < |procs| ==> Recorded(words, base, procs[i]))
    && (forall i :: 0 <= i < |procs| ==> LinkedTo(words, base, procs, i))
  }

  /** No block belongs to two processes. */
  ghost predicate Disjoint(procs: seq<Proc>) {
    forall i, j :: 0 <= i < j < |procs| ==>
      && procs[i].record != procs[j].record && procs[i].record != procs[j].stack
      && procs[i].stack != procs[j].record && procs[i].stack != procs[j].stack
  }

  ghost predicate AllHoused(h: Heap, procs: seq<Proc>) {
    forall i :: 0 <= i < |procs| ==> Housed(h, procs[i])
  }

  /** The whole process list, as blocks and as words. */
  ghost predicate TableInMemory(h: Heap, words: seq<Word>, base: nat, procs: seq<Proc>) {
    AllHoused(h, procs) && Disjoint(procs) && ListInMemory(words, base, procs)
  }

  /** Field words of a housed record are payload words. */
  lemma FieldInPayload(h: Heap, b: nat, f: nat)
    requires Inv(h) && Live(h, b) && h.size[b] >= RECORD_SIZE && f <= NEXT
    ensures InPayload(h, b, Field(b, f))
  {
    assert Shaped(h, b);
    FieldAddress(b, f);
  }

  lemma FieldAddress(b: nat, f: nat)
    requires b % 8 == 0
    ensures 4 * Field(b, f) == b + HEADER + 4 * f
  {
    HeaderWords(b + HEADER);
  }

  lemma FieldsApart(h: Heap, b: nat, c: nat, f: nat, g: nat)
    requires Inv(h) && b != c && Live(h, b) && Live(h, c)
    requires h.size[b] >= RECORD_SIZE && h.size[c] >= RECORD_SIZE && f <= NEXT && g <= NEXT
    ensures Field(b, f) != Field(c, g)
  {
    assert Shaped(h, b) && Shaped(h, c);
    FieldAddress(b, f);
    FieldAddress(c, g);
    if b < c { LiveApart(h, b, c); } else { LiveApart(h, c, b); }
  }

  /** Stacks, records and headers of different processes never share a byte. */
  lemma ProcessesDisjoint(h: Heap, procs: seq<Proc>, i: nat, j: nat)
    requires Inv(h) && AllHoused(h, procs) && Disjoint(procs) && i < |procs| && j < |procs|
    ensures var p, q := procs[i], procs[j];
            && RangesApart(h, p.record, q.stack)
            && (i != j ==> RangesApart(h, p.record, q.record) && RangesApart(h, p.stack, q.stack))
  {
    assert Housed(h, procs[i]) && Housed(h, procs[j]);
    BlocksApart(h, procs[i].record, procs[j].stack);
    if i != j {
      BlocksApart(h, procs[i].record, procs[j].record);
      BlocksApart(h, procs[i].stack, procs[j].stack);
    }
  }

  /** Header and payload of b end before c starts, or the other way round; both lie in the heap. */
  ghost predicate RangesApart(h: Heap, b: nat, c: nat) {
    && b in h.size && c in h.size && End(h, b) <= h.limit && End(h, c) <= h.limit
    && (End(h, b) <= c || End(h, c) <= b)
  }

  lemma BlocksApart(h: Heap, b: nat, c: nat)
    requires Inv(h) && b in h.size && c in h.size && b != c
    ensures RangesApart(h, b, c)
  {
    if b < c { LiveApart(h, b, c); } else { LiveApart(h, c, b); }
  }

  /** Same values at every field word of every process. */
  ghost predicate RecordsSame(words: seq<Word>, after: seq<Word>, procs: seq<Proc>) {
    && |words| == |after|
    && forall i, f: nat {:trigger Field(procs[i].record, f)} ::
         0 <= i < |procs| && f <= NEXT && Field(procs[i].record, f) < |words| ==>
           after[Field(procs[i].record, f)] == words[Field(procs[i].record, f)]
  }

  lemma ListSurvives(words: seq<Word>, after: seq<Word>, base: nat, procs: seq<Proc>)
    requires ListInMemory(words, base, procs) && RecordsSame(words, after, procs)
    ensures ListInMemory(after, base, procs)
  {
    forall i | 0 <= i < |procs| ensures Recorded(after, base, procs[i]) && LinkedTo(after, base, procs, i) {
      assert Recorded(words, base, procs[i]) && LinkedTo(words, base, procs, i);
    }
  }

  /** A store into a record that is not on the list leaves the list as it was. */
  lemma FreshKeepsList(h: Heap, words: seq<Word>, base: nat, procs: seq<Proc>, b: nat, f: nat, v: Word)
    requires Inv(h) && AllHoused(h, procs) && ListInMemory(words, base, procs)
    requires Live(h, b) && h.size[b] >= RECORD_SIZE && Unused(procs, b) && f <= NEXT && Field(b, f) < |words|
    ensures ListInMemory(words[Field(b, f) := v], base, procs)
  {
    forall i, g: nat | 0 <= i < |procs| && g <= NEXT && Field(procs[i].record, g) < |words|
      ensures words[Field(b, f) := v][Field(procs[i].record, g)] == words[Field(procs[i].record, g)]
    {
      assert Housed(h, procs[i]);
      FieldsApart(h, b, procs[i].record, f, g);
    }
    ListSurvives(words, words[Field(b, f) := v], base, procs);
  }

  lemma PayloadsGiveRecords(h: Heap, words: seq<Word>, after: seq<Word>, procs: seq<Proc>)
    requires Inv(h) && AllHoused(h, procs) && SamePayloads(h, words, after)
    ensures RecordsSame(words, after, procs)
  {
    forall i, f: nat | 0 <= i < |procs| && f <= NEXT && Field(procs[i].record, f) < |words|
      ensures after[Field(procs[i].record, f)] == words[Field(procs[i].record, f)]
    {
      assert Housed(h, procs[i]);
      FieldInPayload(h, procs[i].record, f);
    }
  }

  /** Block b serves no listed process. */
  ghost predicate Unused(procs: seq<Proc>, b: nat) {
    forall i :: 0 <= i < |procs| ==> procs[i].record != b && procs[i].stack != b
  }

  lemma AllocKeepsHoused(h: Heap, request: Size, procs: seq<Proc>)
    requires Inv(h) && AllHoused(h, procs)
    ensures AllHoused(Alloc(h, request).0, procs)
    ensures Alloc(h, request).1.Some? ==> Unused(procs, Alloc(h, request).1.value)
  {
    if Alloc(h, request).1.Some? {
      AllocGivesBlock(h, request);
      forall i | 0 <= i < |procs|
        ensures Housed(Alloc(h, request).0, procs[i])
        ensures procs[i].record != Alloc(h, request).1.value && procs[i].stack != Alloc(h, request).1.value
      {
        assert Housed(h, procs[i]);
      }
    }
  }

  class ProcessTable {
    const heap: Allocator
    var procList: Word
    var currentProc: Word
    var nextPid: Word
    ghost var table: Table

    ghost predicate Valid()
      reads this, heap, heap.mem
    {
      && heap.Valid()
      && TableInMemory(heap.heap, heap.mem[..], heap.base, table.procs)
      && procList == Pointer(heap.base, table.procs, 0)
      && (table.current.Some? ==> table.current.value < |table.procs|)
      && currentProc == if table.current.None? then 0 else Pointer(heap.base, table.procs, table.current.value)
    }

    /** proc_init. */
    constructor (h: Allocator)
      requires h.Valid()
      ensures Valid() && heap == h && table == Table([], None) && nextPid == 1
    {
      heap := h;
      procList, currentProc, nextPid := 0, 0, 1;
      table := Table([], None);
    }

    /** mm_alloc as proc.c sees it: no process record changes. */
    method Allocate(request: Size) returns (pointer: Word)
      requires Valid()
      modifies heap, heap.mem
      ensures Valid() && SamePayloads(old(heap.heap), old(heap.mem[..]), heap.mem[..])
      ensures var (t, r) := Alloc(old(heap.heap), request);
              heap.heap == t && pointer == (if r.Some? then heap.base + r.value + HEADER else 0)
              && (r.Some? ==> Unused(table.procs, r.value))
    {
      ghost var h, words := heap.heap, heap.mem[..];
      AllocKeepsHoused(h, request, table.procs);
      pointer := heap.MmAlloc(request);
      PayloadsGiveRecords(h, words, heap.mem[..], table.procs);
      ListSurvives(words, heap.mem[..], heap.base, table.procs);
    }

    /** p->field = v on a record that is not on the list yet. */
    method SetFresh(p: Word, f: nat, v: Word, ghost b: nat)
      requires Valid() && Live(heap.heap, b) && heap.heap.size[b] >= RECORD_SIZE && f <= NEXT
      requires Unused(table.procs, b) && p == heap.base + b + HEADER
      modifies heap.mem
      ensures Valid() && Field(b, f) < heap.mem.Length && heap.mem[..] == old(heap.mem[..])[Field(b, f) := v]
    {
      FieldInPayload(heap.heap, b, f);
      FreshKeepsList(heap.heap, heap.mem[..], heap.base, table.procs, b, f, v);
      heap.Store(p + 4 * f, v, b, Field(b, f));
    }

    /** p->field = v on the i-th listed process. */
    method SetListed(p: Word, f: nat, v: Word, ghost i: nat)
      requires heap.Valid() && AllHoused(heap.heap, table.procs) && i < |table.procs| && f <= NEXT
      requires p == Pointer(heap.base, table.procs, i)
      modifies heap.mem
      ensures heap.Valid() && Field(table.procs[i].record, f) < heap.mem.Length
      ensures heap.mem[..] == old(heap.mem[..])[Field(table.procs[i].record, f) := v]
    {
      ghost var b := table.procs[i].record;
      assert Housed(heap.heap, table.procs[i]);
      FieldInPayload(heap.heap, b, f);
      heap.Store(p + 4 * f, v, b, Field(b, f));
    }

    /** p->field of the i-th listed process. */
    function Get(p: Word, f: nat, ghost i: nat): (v: Word)
      requires Valid() && i < |table.procs| && f <= NEXT && p == Pointer(heap.base, table.procs, i)
      reads this, heap, heap.mem
      ensures Field(table.procs[i].record, f) < heap.mem.Length && v == heap.mem[Field(table.procs[i].record, f)]
    {
      assert Housed(heap.heap, table.procs[i]);
      FieldInPayload(heap.heap, table.procs[i].record, f);
      heap.At(p + 4 * f)
    }

    /** while (p->next) p = p->next: ends at the last process. */
    method FindLast() returns (last: Word)
      requires Valid() && table.procs != []
      ensures last == Pointer(heap.base, table.procs, |table.procs| - 1)
    {
      last := procList;
      ghost var i := 0;
      assert LinkedTo(heap.mem[..], heap.base, table.procs, 0);
      while Get(last, NEXT, i) != 0
        invariant i < |table.procs| && last == Pointer(heap.base, table.procs, i)
        invariant LinkedTo(heap.mem[..], heap.base, table.procs, i)
        decreases |table.procs| - i
      {
        last := Get(last, NEXT, i);
        i := i + 1;
        assert LinkedTo(heap.mem[..], heap.base, table.procs, i);
      }
    }

    /** p->field = v on the i-th listed process, where that makes memory represent the list `after`. */
    method Rewrite(p: Word, f: nat, v: Word, ghost i: nat, ghost after: seq<Proc>)
      requires Valid() && i < |table.procs| && f <= NEXT && p == Pointer(heap.base, table.procs, i)
      requires Field(table.procs[i].record, f) < heap.mem.Length
      requires TableInMemory(heap.heap, heap.mem[..][Field(table.procs[i].record, f) := v], heap.base, after)
      requires |after| >= |table.procs|
      requires forall j :: 0 <= j < |table.procs| ==> after[j].record == table.procs[j].record
      modifies this`table, heap.mem
      ensures Valid() && table == old(table).(procs := after)
    {
      SetListed(p, f, v, i);
      assert Pointer(heap.base, after, 0) == Pointer(heap.base, table.procs, 0);
      table := table.(procs := after);
    }

    method StartList(p: Word, ghost q: Proc)
      requires Valid() && table.procs == [] && p == heap.base + q.record + HEADER && Housed(heap.heap, q)
      requires Recorded(heap.mem[..], heap.base, q) && heap.mem[Field(q.record, NEXT)] == 0
      modifies this`procList, this`table
      ensures Valid() && table == old(table).(procs := [q])
    {
      procList := p;
      table := table.(procs := [q]);
    }

    method ExtendList(p: Word, ghost q: Proc)
      requires Valid() && table.procs != [] && p == heap.base + q.record + HEADER && Housed(heap.heap, q)
      requires Unused(table.procs, q.record) && Unused(table.procs, q.stack)
      requires Recorded(heap.mem[..], heap.base, q) && heap.mem[Field(q.record, NEXT)] == 0
      modifies this`table, heap.mem
      ensures Valid() && table == old(table).(procs := old(table).procs + [q])
    {
      var last := FindLast();
      ghost var i, after := |table.procs| - 1, table.procs + [q];
      AppendedList(heap.mem[..], heap.base, heap.heap, table.procs, q, p, i, after);
      Rewrite(last, NEXT, p, i, after);
    }

    /** The list append that ends proc_create. */
    method AppendToList(p: Word, ghost q: Proc)
      requires Valid() && p == heap.base + q.record + HEADER
      requires Housed(heap.heap, q) && Unused(table.procs, q.record) && Unused(table.procs, q.stack)
      requires Recorded(heap.mem[..], heap.base, q) && heap.mem[Field(q.record, NEXT)] == 0
      modifies this`procList, this`table, heap.mem
      ensures Valid() && table == old(table).(procs := old(table).procs + [q])
    {
      if procList == 0 {
        StartList(p, q);
        assert old(table).procs + [q] == [q];
      } else {
        ExtendList(p, q);
      }
    }

    /** Fill the record fields that proc_create writes before it asks for a stack. */
    method InitIdentity(p: Word, entry: Word, ghost b: nat)
      requires Valid() && Live(heap.heap, b) && heap.heap.size[b] >= RECORD_SIZE
      requires Unused(table.procs, b) && p == heap.base + b + HEADER && nextPid < 0x7fff_ffff
      modifies this`nextPid, heap.mem
      ensures Valid() && nextPid == old(nextPid) + 1 && Named(heap.mem[..], b, old(nextPid), Ready, entry)
    {
      FieldInPayload(heap.heap, b, NEXT);
      assert Shaped(heap.heap, b);
      SetFresh(p, PID, nextPid, b);
      nextPid := nextPid + 1;
      SetFresh(p, STATE, StateCode(Ready), b);
      SetFresh(p, EIP, entry, b);
    }

    /** The stores after the stack has been obtained. */
    method InitContext(p: Word, top: Word, ghost b: nat)
      requires Valid() && Live(heap.heap, b) && heap.heap.size[b] >= RECORD_SIZE
      requires Unused(table.procs, b) && p == heap.base + b + HEADER && Field(b, NEXT) < heap.mem.Length
      modifies heap.mem
      ensures Valid() && heap.mem[..] == WithContext(old(heap.mem[..]), b, top)
    {
      SetFresh(p, ESP, top, b);
      SetFresh(p, EBP, top, b);
      SetFresh(p, 5, 0, b);
      SetFresh(p, 6, 0, b);
      SetFresh(p, 7, 0, b);
      SetFresh(p, 8, 0, b);
      SetFresh(p, 9, 0, b);
      SetFresh(p, 10, 0, b);
      SetFresh(p, EFLAGS, 0x202, b);
      SetFresh(p, 12, 0, b);
      SetFresh(p, NEXT, 0, b);
    }

    method PrepareContext(p: Word, top: Word, ghost b: nat, ghost pid: nat, ghost entry: nat)
      requires Valid() && Live(heap.heap, b) && heap.heap.size[b] >= RECORD_SIZE
      requires Unused(table.procs, b) && p == heap.base + b + HEADER && Named(heap.mem[..], b, pid, Ready, entry)
      modifies heap.mem
      ensures Valid() && Named(heap.mem[..], b, pid, Ready, entry)
      ensures ContextAt(heap.mem[..], b, top) && heap.mem[Field(b, NEXT)] == 0
    {
      ContextWritten(heap.mem[..], b, top);
      InitContext(p, top, b);
    }

    /** proc_create from the moment the stack is there. */
    method FinishCreate(p: Word, stack: Word, ghost q: Proc)
      requires Valid() && Housed(heap.heap, q) && Unused(table.procs, q.record) && Unused(table.procs, q.stack)
      requires p == heap.base + q.record + HEADER && stack == heap.base + q.stack + HEADER
      requires q.state == Ready && Named(heap.mem[..], q.record, q.pid, Ready, q.entry)
      modifies this`procList, this`table, heap.mem
      ensures Valid() && table == old(table).(procs := old(table).procs + [q])
    {
      assert Shaped(heap.heap, q.stack);
      PrepareContext(p, stack + STACK_SIZE, q.record, q.pid, q.entry);
      AppendToList(p, q);
    }

    /** Block b is a record of its own in which proc_create has filled in pid, state and entry. */
    ghost predicate Started(p: Word, b: nat, pid: nat, entry: nat)
      reads this, heap, heap.mem
    {
      && Live(heap.heap, b) && heap.heap.size[b] >= RECORD_SIZE && Unused(table.procs, b)
      && p == heap.base + b + HEADER && Named(heap.mem[..], b, pid, Ready, entry)
    }

    /** proc_create up to the identity fields. */
    method NewRecord(entry: Word) returns (p: Word)
      requires Valid() && nextPid < 0x7fff_ffff
      modifies this`nextPid, heap, heap.mem
      ensures Valid() && heap.heap == Alloc(old(heap.heap), RECORD_SIZE).0
      ensures p != 0 <==> Alloc(old(heap.heap), RECORD_SIZE).1.Some?
      ensures nextPid == old(nextPid) + (if p != 0 then 1 else 0)
      ensures p != 0 ==> Started(p, Alloc(old(heap.heap), RECORD_SIZE).1.value, old(nextPid), entry)
    {
      ghost var h := heap.heap;
      p := Allocate(RECORD_SIZE);
      if p != 0 {
        AllocGivesBlock(h, RECORD_SIZE);
        InitIdentity(p, entry, Alloc(h, RECORD_SIZE).1.value);
      }
    }

    /** The rest of proc_create. */
    method AddStack(p: Word, ghost b: nat, ghost pid: nat, ghost entry: nat) returns (ok: bool)
      requires Valid() && Started(p, b, pid, entry)
      modifies this`procList, this`table, heap, heap.mem
      ensures Valid() && heap.heap == Alloc(old(heap.heap), STACK_SIZE).0
      ensures ok <==> Alloc(old(heap.heap), STACK_SIZE).1.Some?
      ensures table == if !ok then old(table) else
                old(table).(procs := old(table).procs
                                     + [Proc(pid, Ready, entry, b, Alloc(old(heap.heap), STACK_SIZE).1.value)])
    {
      ghost var h := heap.heap;
      KeepFields(h, b);
      var stack := Allocate(STACK_SIZE);
      ok := stack != 0;
      if ok {
        AllocGivesBlock(h, STACK_SIZE);
        FinishCreate(p, stack, Proc(pid, Ready, entry, b, Alloc(h, STACK_SIZE).1.value));
      }
    }

    /**
     proc_create. On success the new process is last in the list with its own record and stack, and
     its record holds the whole initial context; on failure the list is unchanged, although a
     record taken before the stack failed stays taken.
     */
    method ProcCreate(entry: Word) returns (p: Word)
      requires Valid() && nextPid < 0x7fff_ffff
      modifies this`nextPid, this`procList, this`table, heap, heap.mem
      ensures Valid() && heap.heap == CreateBlocks(old(heap.heap)).0
      ensures p != 0 <==> CreateBlocks(old(heap.heap)).1.Some?
      ensures p == 0 ==> table == old(table)
      ensures p != 0 ==>
        var (record, stack) := CreateBlocks(old(heap.heap)).1.value;
        var q := Proc(old(nextPid), Ready, entry, record, stack);
        && p == heap.base + record + HEADER && table == old(table).(procs := old(table).procs + [q])
        && Recorded(heap.mem[..], heap.base, q)
    {
      ghost var h := heap.heap;
      p := NewRecord(entry);
      if p != 0 {
        var ok := AddStack(p, Alloc(h, RECORD_SIZE).1.value, old(nextPid), entry);
        if !ok {
          return 0;
        }
        assert table.procs[|table.procs| - 1] == Proc(old(nextPid), Ready, entry, CreateBlocks(h).1.value.0,
                                                      CreateBlocks(h).1.value.1);
      }
    }

    /** The word that holds the state of the i-th listed process. */
    ghost function StateWord(i: nat): Word
      requires Valid() && i < |table.procs|
      reads this, heap, heap.mem
    {
      RecordWords(heap.mem[..], heap.base, table.procs, i);
      heap.mem[(table.procs[i].record + 8) / 4 + 1]
    }

    /** proc_schedule up to the call of the entry function; `run` says whether there is one to call. */
    method DispatchNext() returns (run: bool, entry: Word)
      requires Valid()
      modifies this`currentProc, this`table, heap.mem
      ensures Valid() && table == Dispatch(old(table)).0 && run == Dispatch(old(table)).1.Some?
      ensures run ==> entry == old(table).procs[Dispatch(old(table)).1.value].entry
      ensures run ==> table.current.Some? && StateWord(table.current.value) == 0
      ensures heap.heap == old(heap.heap)
    {
      run, entry := false, 0;
      if procList == 0 {
        return;
      }
      ghost var i := NextPosition(table);
      StepCurrent();
      run, entry := StartIfReady(i);
    }

    /** Marks the current process running if it is ready, and fetches its entry. */
    method StartIfReady(ghost i: nat) returns (run: bool, entry: Word)
      requires Valid() && table.current == Some(i)
      modifies this`table, heap.mem
      ensures Valid() && run == (old(table).procs[i].state == Ready)
      ensures table == if run then WithState(old(table), i, Running) else old(table)
      ensures run ==> entry == old(table).procs[i].entry && StateWord(i) == 0
      ensures heap.heap == old(heap.heap)
    {
      run, entry := false, 0;
      assert Recorded(heap.mem[..], heap.base, table.procs[i]);
      if Get(currentProc, STATE, i) == StateCode(Ready) {
        run := true;
        SetState(Running, i);
        assert Recorded(heap.mem[..], heap.base, table.procs[i]);
        entry := Get(currentProc, EIP, i);
        RecordWords(heap.mem[..], heap.base, table.procs, i);
      }
    }

    /** current_proc = current_proc ? (current_proc->next or the list head) : the list head. */
    method StepCurrent()
      requires Valid() && table.procs != []
      modifies this`currentProc, this`table
      ensures Valid() && table == old(table).(current := Some(NextPosition(old(table))))
    {
      if currentProc == 0 {
        currentProc := procList;
      } else {
        ghost var i := table.current.value;
        assert LinkedTo(heap.mem[..], heap.base, table.procs, i);
        var next := Get(currentProc, NEXT, i);
        currentProc := if next != 0 then next else procList;
      }
      table := table.(current := Some(NextPosition(table)));
    }

    /** current_proc->state = state. */
    method SetState(state: ProcState, ghost i: nat)
      requires Valid() && table.current == Some(i)
      modifies this`table, heap.mem
      ensures Valid() && table == WithState(old(table), i, state) && heap.heap == old(heap.heap)
    {
      StateWritten(heap.mem[..], heap.base, heap.heap, table.procs, i, state);
      Rewrite(currentProc, STATE, StateCode(state), i, WithState(table, i, state).procs);
    }

    /** What proc_schedule does when the entered process returns. */
    method FinishCurrent()
      requires Valid() && table.current.Some?
      modifies this`table, heap.mem
      ensures Valid() && table == WithState(old(table), old(table).current.value, Terminated)
      ensures StateWord(old(table).current.value) == 3
      ensures heap.heap == old(heap.heap)
    {
      SetState(Terminated, table.current.value);
      RecordWords(heap.mem[..], heap.base, table.procs, table.current.value);
    }
  }

  lemma JoinFits(h: Heap, procs: seq<Proc>, q: Proc)
    requires AllHoused(h, procs) && Disjoint(procs) && Housed(h, q) && Unused(procs, q.record) && Unused(procs, q.stack)
    ensures AllHoused(h, procs + [q]) && Disjoint(procs + [q])
  {}

  /** The identity fields of a live record are payload, so an allocation leaves them alone. */
  lemma KeepFields(h: Heap, b: nat)
    requires Inv(h) && Live(h, b) && h.size[b] >= RECORD_SIZE
    ensures InPayload(h, b, Field(b, PID)) && InPayload(h, b, Field(b, STATE)) && InPayload(h, b, Field(b, EIP))
  {
    FieldInPayload(h, b, PID);
    FieldInPayload(h, b, STATE);
    FieldInPayload(h, b, EIP);
  }

  /** Linking q behind the last process extends the list in memory by q. */
  lemma AppendedList(words: seq<Word>, base: nat, h: Heap, procs: seq<Proc>, q: Proc, p: Word,
                     last: nat, all: seq<Proc>)
    requires Inv(h) && TableInMemory(h, words, base, procs) && procs != []
    requires Housed(h, q) && Unused(procs, q.record) && Unused(procs, q.stack) && p == base + q.record + HEADER
    requires Recorded(words, base, q) && words[Field(q.record, NEXT)] == 0
    requires last == |procs| - 1 && all == procs + [q]
    ensures Field(procs[last].record, NEXT) < |words|
    ensures TableInMemory(h, words[Field(procs[last].record, NEXT) := p], base, all)
  {
    JoinFits(h, procs, q);
    var end := procs[last];
    assert Recorded(words, base, end) && Housed(h, end);
    var after := words[Field(end.record, NEXT) := p];
    forall i | 0 <= i < |all| ensures Recorded(after, base, all[i]) && LinkedTo(after, base, all, i) {
      if i < |procs| {
        assert Recorded(words, base, procs[i]) && LinkedTo(words, base, procs, i) && Housed(h, procs[i]);
        if i != last {
          OtherFieldsKept(h, words, after, end.record, procs[i].record);
        }
      } else {
        OtherFieldsKept(h, words, after, end.record, q.record);
      }
    }
  }

  lemma OtherFieldsKept(h: Heap, words: seq<Word>, after: seq<Word>, b: nat, c: nat)
    requires Inv(h) && b != c && Live(h, b) && Live(h, c) && |after| == |words|
    requires h.size[b] >= RECORD_SIZE && h.size[c] >= RECORD_SIZE
    requires Field(b, NEXT) < |words| && after == words[Field(b, NEXT) := after[Field(b, NEXT)]]
    ensures forall f: nat {:trigger Field(c, f)} ::
              f <= NEXT && Field(c, f) < |words| ==> after[Field(c, f)] == words[Field(c, f)]
  {
    forall f: nat | f <= NEXT ensures Field(c, f) != Field(b, NEXT) { FieldsApart(h, c, b, f, NEXT); }
  }

  /** Rewriting one state word is the same as rewriting that process's state. */
  lemma StateWritten(words: seq<Word>, base: nat, h: Heap, procs: seq<Proc>, i: nat, state: ProcState)
    requires Inv(h) && TableInMemory(h, words, base, procs) && i < |procs|
    ensures Field(procs[i].record, STATE) < |words|
    ensures TableInMemory(h, words[Field(procs[i].record, STATE) := StateCode(state)], base,
                          procs[i := procs[i].(state := state)])
  {
    assert Recorded(words, base, procs[i]) && Housed(h, procs[i]);
    var after := words[Field(procs[i].record, STATE) := StateCode(state)];
    var all := procs[i := procs[i].(state := state)];
    forall j | 0 <= j < |all| ensures Housed(h, all[j]) { assert Housed(h, procs[j]); }
    forall j | 0 <= j < |all| ensures Recorded(after, base, all[j]) && LinkedTo(after, base, all, j) {
      assert Recorded(words, base, procs[j]) && LinkedTo(words, base, procs, j) && Housed(h, procs[j]);
      if j != i {
        forall f: nat | f <= NEXT ensures Field(procs[j].record, f) != Field(procs[i].record, STATE) {
          FieldsApart(h, procs[j].record, procs[i].record, f, STATE);
        }
      }
    }
  }
}
