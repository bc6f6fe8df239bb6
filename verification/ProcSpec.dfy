/**
 Processes of modular-kernel (proc.c): what proc_create takes from the heap, and how
 proc_schedule walks the process list. Entry functions are arbitrary code that may create
 processes but does not schedule.
 */
module ProcSpec {
  import opened HeapSpec
  import opened Options
  import opened HeapLaws

  const RECORD_SIZE := 56   // sizeof(process_t) on the -m32 build
  const STACK_SIZE := 4096
  const FOOTPRINT := 4168   // both blocks with their headers

  // --------------------------------------------------------------- memory per process

  /** The two allocations of proc_create; a record is not given back when the stack fails. */
  function CreateBlocks(h: Heap): (Heap, Option<(nat, nat)>)
    requires Inv(h)
  {
    var (h1, record) := Alloc(h, RECORD_SIZE);
    AllocInv(h, Aligned(RECORD_SIZE));
    if record.None? then (h1, None)
    else
      var (h2, stack) := Alloc(h1, STACK_SIZE);
      if stack.None? then (h2, None) else (h2, Some((record.value, stack.value)))
  }

  lemma CreateKeepsInv(h: Heap)
    requires Inv(h)
    ensures Inv(CreateBlocks(h).0)
  {
    AllocInv(h, Aligned(RECORD_SIZE));
    AllocInv(Alloc(h, RECORD_SIZE).0, Aligned(STACK_SIZE));
  }

  /** A new process gets two fresh live blocks, large enough and distinct from all others. */
  lemma CreateGivesBlocks(h: Heap)
    requires Inv(h) && CreateBlocks(h).1.Some?
    ensures var (t, r) := CreateBlocks(h); var (record, stack) := r.value;
            && Inv(t) && record != stack && !Live(h, record) && !Live(h, stack)
            && Live(t, record) && t.size[record] >= 56 && Live(t, stack) && t.size[stack] >= 4096
            && (forall c :: Live(h, c) ==> Live(t, c) && t.size[c] == h.size[c])
  {
    AllocGivesBlock(h, RECORD_SIZE);
    AllocGivesBlock(Alloc(h, RECORD_SIZE).0, STACK_SIZE);
  }

  /** The record is taken first, and stays taken when there is no room for the stack. */
  lemma RecordLost(limit: nat)
    requires 64 <= limit < 4168 && limit % 8 == 0
    ensures var (t, r) := CreateBlocks(Fresh(limit)); r.None? && Live(t, 0) && t.size[0] >= 56
  {
    AllocFromRoom(Fresh(limit), RECORD_SIZE);
    AllocFits(Fresh(limit), RECORD_SIZE);
    AllocGivesBlock(Fresh(limit), RECORD_SIZE);
    AllocFromRoom(Alloc(Fresh(limit), RECORD_SIZE).0, STACK_SIZE);
  }

  /** `count` calls of proc_create with no frees: how many succeed, and the heap left behind. */
  function Creations(h: Heap, count: nat): (nat, Heap)
    requires Inv(h)
    decreases count
  {
    if count == 0 then (0, h)
    else
      CreateKeepsInv(h);
      var (t, r) := CreateBlocks(h);
      var (rest, end) := Creations(t, count - 1);
      ((if r.Some? then 1 else 0) + rest, end)
  }

  /** The bytes of the only free block, header included. */
  function Room(h: Heap): nat
    requires Inv(h) && |h.free| <= 1
  {
    if h.free == [] then 0 else h.size[h.free[0]] + HEADER
  }

  lemma AllocNoRoom(h: Heap, n: Size)
    requires Inv(h) && |h.free| <= 1 && n % 8 == 0 && n < TWO32 - 8 && Room(h) < n + HEADER
    ensures Alloc(h, n) == (h, None)
  {
    if h.free != [] { FirstFitIsFirst(h, n, 0, 1); }
  }

  lemma AllocFits(h: Heap, n: Size)
    requires Inv(h) && |h.free| <= 1 && n % 8 == 0 && n < TWO32 - 8 && Room(h) >= n + HEADER
    ensures Alloc(h, n) == (if Room(h) >= n + 24 then Split(h, 0, n) else Unlink(h, 0), Some(h.free[0]))
  {
    FirstFitIsFirst(h, n, 0, 0);
  }

  /** One allocation of n bytes from a heap with at most one free block. */
  lemma AllocFromRoom(h: Heap, n: Size)
    requires Inv(h) && |h.free| <= 1 && n % 8 == 0 && n < TWO32 - 8
    ensures var (t, r) := Alloc(h, n);
            && Inv(t) && |t.free| <= 1
            && (r.Some? <==> Room(h) >= n + HEADER)
            && Room(t) == if Room(h) >= n + 24 then Room(h) - n - HEADER
                          else if Room(h) >= n + HEADER then 0 else Room(h)
  {
    AllocInv(h, n);
    if Room(h) < n + HEADER { AllocNoRoom(h, n); } else { AllocFits(h, n); }
  }

  lemma CreateFromRoom(h: Heap)
    requires Inv(h) && |h.free| <= 1
    ensures var (t, r) := CreateBlocks(h);
            && Inv(t) && |t.free| <= 1 && Room(t) <= Room(h)
            && (r.Some? <==> Room(h) >= FOOTPRINT)
            && (r.Some? ==> Room(t) / FOOTPRINT == Room(h) / FOOTPRINT - 1)
  {
    AllocFromRoom(h, RECORD_SIZE);
    AllocFromRoom(Alloc(h, RECORD_SIZE).0, STACK_SIZE);
    if h.free != [] { assert Shaped(h, h.free[0]); }
  }

  lemma {:induction false} CreationsFromRoom(h: Heap, count: nat)
    requires Inv(h) && |h.free| <= 1
    ensures Creations(h, count).0 == if count <= Room(h) / FOOTPRINT then count else Room(h) / FOOTPRINT
    decreases count
  {
    if count > 0 {
      CreateFromRoom(h);
      CreationsFromRoom(CreateBlocks(h).0, count - 1);
    }
  }

  /** From mm_init exactly limit / 4168 creations succeed: 125 for the 512 KB heap. */
  lemma ProcessCapacity(limit: nat, count: nat)
    requires limit >= HEADER && limit % 8 == 0
    ensures Creations(Fresh(limit), count).0 == if count <= limit / 4168 then count else limit / 4168
    ensures limit == 512 * 1024 ==> limit / 4168 == 125
  {
    CreationsFromRoom(Fresh(limit), count);
  }

  // ------------------------------------------------------------------ scheduling

  datatype ProcState = Running | Ready | Waiting | Terminated

  datatype Proc = Proc(pid: nat, state: ProcState, entry: nat, record: nat, stack: nat)

  /** The process list in order, and the position proc_schedule last stopped at. */
  datatype Table = Table(procs: seq<Proc>, current: Option<nat>)

  function NextPosition(t: Table): nat {
    if t.current.Some? && t.current.value + 1 < |t.procs| then t.current.value + 1 else 0
  }

  function WithState(t: Table, i: nat, state: ProcState): Table
    requires i < |t.procs|
  {
    t.(procs := t.procs[i := t.procs[i].(state := state)])
  }

  /** proc_schedule up to the entry call: Some(i) when process i is to be entered. */
  function Dispatch(t: Table): (r: (Table, Option<nat>))
    ensures |r.0.procs| == |t.procs| && (r.1.Some? ==> r.1.value < |t.procs|)
  {
    if t.procs == [] then (t, None)
    else
      var i := NextPosition(t);
      var u := t.(current := Some(i));
      if t.procs[i].state == Ready then (WithState(u, i, Running), Some(i)) else (u, None)
  }

  function Append(t: Table, born: seq<Proc>): Table {
    t.(procs := t.procs + born)
  }

  /** One whole proc_schedule; the entered process appends `born` before it returns. */
  function Schedule(t: Table, born: seq<Proc>): Table {
    var (u, entered) := Dispatch(t);
    if entered.None? then u
    else WithState(Append(u, born), entered.value, Terminated)
  }

  ghost predicate AllReady(procs: seq<Proc>) {
    forall i :: 0 <= i < |procs| ==> procs[i].state == Ready
  }

  /** The first m processes have run, all others are waiting for their first turn. */
  ghost predicate RanPrefix(t: Table, m: nat) {
    && m <= |t.procs|
    && (forall i :: 0 <= i < m ==> t.procs[i].state == Terminated)
    && (forall i :: m <= i < |t.procs| ==> t.procs[i].state == Ready)
    && (t.current.None? ==> m == 0)
    && (t.current.Some? ==> t.current.value < m)
  }

  /** Processes run once each, in creation order: a schedule enters exactly process m, or no one. */
  lemma ScheduleRunsInOrder(t: Table, born: seq<Proc>, m: nat)
    requires RanPrefix(t, m) && AllReady(born)
    ensures var (_, entered) := Dispatch(t);
            && (entered.Some? ==> entered.value == m && m < |t.procs| && RanPrefix(Schedule(t, born), m + 1))
            && (entered.None? ==> RanPrefix(Schedule(t, born), m))
  {}

  /** What happens between boundaries: someone creates processes, or proc_schedule runs. */
  datatype Event = Create(created: seq<Proc>) | Round(born: seq<Proc>)

  ghost predicate Sane(e: Event) {
    AllReady(if e.Create? then e.created else e.born)
  }

  function Step(t: Table, e: Event): Table {
    match e
    case Create(created) => Append(t, created)
    case Round(born) => Schedule(t, born)
  }

  function Run(t: Table, events: seq<Event>): Table
    decreases |events|
  {
    if events == [] then t else Run(Step(t, events[0]), events[1..])
  }

  /** The processes entered during a run, in order of entry. */
  function Entered(t: Table, events: seq<Event>): seq<nat>
    decreases |events|
  {
    if events == [] then []
    else
      (if events[0].Round? && Dispatch(t).1.Some? then [Dispatch(t).1.value] else [])
      + Entered(Step(t, events[0]), events[1..])
  }

  function Rounds(events: seq<Event>): nat {
    if events == [] then 0 else (if events[0].Round? then 1 else 0) + Rounds(events[1..])
  }

  /** Over any run, the processes entered are m, m+1, m+2, ... without gap or repetition. */
  lemma {:induction false} RunInCreationOrder(t: Table, events: seq<Event>, m: nat)
    requires RanPrefix(t, m) && forall i :: 0 <= i < |events| ==> Sane(events[i])
    ensures var entered := Entered(t, events);
            && RanPrefix(Run(t, events), m + |entered|)
            && forall k :: 0 <= k < |entered| ==> entered[k] == m + k
    decreases |events|
  {
    if events != [] {
      assert Sane(events[0]);
      var u := Step(t, events[0]);
      if events[0].Round? {
        ScheduleRunsInOrder(t, events[0].born, m);
        RunInCreationOrder(u, events[1..], if Dispatch(t).1.Some? then m + 1 else m);
      } else {
        RunInCreationOrder(u, events[1..], m);
      }
    }
  }

  /** How many more rounds until process i is reached. */
  function Distance(t: Table, i: nat): int {
    if t.current.None? then i + 1 else i - t.current.value
  }

  /**
   A waiting process is entered within as many rounds as the list was long when we started
   counting, whatever is created meanwhile: the scan only moves towards it.
   */
  lemma {:induction false} EveryProcessRuns(t: Table, events: seq<Event>, m: nat, i: nat)
    requires RanPrefix(t, m) && i < |t.procs| && forall k :: 0 <= k < |events| ==> Sane(events[k])
    requires Rounds(events) >= Distance(t, i)
    ensures Distance(t, i) <= |t.procs|
    ensures i < |Run(t, events).procs| && Run(t, events).procs[i].state == Terminated
    decreases |events|
  {
    if i < m {
      RunInCreationOrder(t, events, m);
    } else {
      assert Sane(events[0]);
      var u := Step(t, events[0]);
      if events[0].Round? {
        ScheduleRunsInOrder(t, events[0].born, m);
        EveryProcessRuns(u, events[1..], if Dispatch(t).1.Some? then m + 1 else m, i);
      } else {
        EveryProcessRuns(u, events[1..], m, i);
      }
    }
  }

  // ------------------------------------------------------------------ round and round

  /** k rounds in which nothing is created. */
  function Turn(t: Table, k: nat): Table {
    if k == 0 then t else Schedule(Turn(t, k - 1), [])
  }

  ghost predicate Placed(t: Table) {
    t.procs != [] && (t.current.Some? ==> t.current.value < |t.procs|)
  }

  /** Where the first round starts from: the current process, or as if from the last. */
  function From(t: Table): int {
    if t.current.Some? then t.current.value else |t.procs| - 1
  }

  lemma ModStep(a: int, k: nat, n: nat)
    requires n > 0 && 0 <= a
    ensures (a + k + 1) % n == (if (a + k) % n + 1 == n then 0 else (a + k) % n + 1)
  {
    var q, r := (a + k) / n, (a + k) % n;
    assert a + k == q * n + r;
    if r + 1 == n {
      assert a + k + 1 == (q + 1) * n;
      ModIs(a + k + 1, n, q + 1, 0);
    } else {
      ModIs(a + k + 1, n, q, r + 1);
    }
  }

  lemma ModIs(m: nat, n: nat, q: nat, r: nat)
    requires r < n && m == q * n + r
    ensures m % n == r
  {
    var q', r' := m / n, m % n;
    assert m == q' * n + r';
    assert q' > q ==> q' * n >= (q + 1) * n == q * n + n;
    assert q' < q ==> q * n >= (q' + 1) * n == q' * n + n;
  }

  lemma {:induction false} TurnAt(t: Table, k: nat)
    requires Placed(t)
    ensures |Turn(t, k).procs| == |t.procs| && Placed(Turn(t, k))
    ensures k > 0 ==> Turn(t, k).current == Some((From(t) + k) % |t.procs|)
  {
    if k > 0 {
      TurnAt(t, k - 1);
      ModStep(From(t), k - 1, |t.procs|);
      if k == 1 { ModIs(From(t), |t.procs|, 0, From(t)); }
    }
  }

  /** Each round moves one process on, and from the last back to the first. */
  lemma RoundsGoRound(t: Table, k: nat)
    requires Placed(t)
    ensures |Turn(t, k).procs| == |t.procs|
    ensures t.current.Some? ==> Turn(t, k).current == Some((t.current.value + k) % |t.procs|)
    ensures t.current.None? && k > 0 ==> Turn(t, k).current == Some((k - 1) % |t.procs|)
  {
    TurnAt(t, k);
    if t.current.Some? {
      ModIs(t.current.value, |t.procs|, 0, t.current.value);
    } else if k > 0 {
      ModShift(k - 1, |t.procs|);
    }
  }

  lemma ModShift(m: nat, n: nat)
    requires n > 0
    ensures (n + m) % n == m % n
  {
    ModIs(n + m, n, m / n + 1, m % n);
  }

  /** A round that does not stop at process i leaves it as it is. */
  lemma OthersWait(t: Table, i: nat)
    requires Placed(t) && i < |t.procs| && Schedule(t, []).current != Some(i)
    ensures |Schedule(t, []).procs| == |t.procs| && Schedule(t, []).procs[i] == t.procs[i]
  {}

  /** Positions less than n rounds apart differ. */
  lemma ModApart(a: int, j: nat, k: nat, n: nat)
    requires n > 0 && 0 <= a && j < k < j + n
    ensures (a + j) % n != (a + k) % n
  {
    var q, r := (a + j) / n, (a + j) % n;
    assert a + j == q * n + r;
    if r + (k - j) < n {
      ModIs(a + k, n, q, r + (k - j));
    } else {
      assert a + k == (q + 1) * n + (r + (k - j) - n);
      ModIs(a + k, n, q + 1, r + (k - j) - n);
    }
  }

  lemma {:induction false} WaitsUntil(t: Table, i: nat, k: nat, j: nat)
    requires Placed(t) && i < |t.procs| && j < k <= |t.procs| && (From(t) + k) % |t.procs| == i
    ensures |Turn(t, j).procs| == |t.procs| && Turn(t, j).procs[i] == t.procs[i]
    decreases j
  {
    if j > 0 {
      WaitsUntil(t, i, k, j - 1);
      TurnAt(t, j - 1);
      TurnAt(t, j);
      ModApart(From(t), j, k, |t.procs|);
      OthersWait(Turn(t, j - 1), i);
    }
  }

  /**
   The exact round: a ready process i is entered in the one of the next n rounds that stops at it,
   not before, and has terminated after it.
   */
  lemma EnteredInRound(t: Table, i: nat, k: nat)
    requires Placed(t) && i < |t.procs| && t.procs[i].state == Ready
    requires 1 <= k <= |t.procs| && (From(t) + k) % |t.procs| == i
    ensures Dispatch(Turn(t, k - 1)).1 == Some(i)
    ensures forall j :: 0 <= j < k - 1 ==> Dispatch(Turn(t, j)).1 != Some(i)
    ensures |Turn(t, k).procs| == |t.procs| && Turn(t, k).procs[i].state == Terminated
  {
    TurnAt(t, k - 1);
    TurnAt(t, k);
    WaitsUntil(t, i, k, k - 1);
    StopsAt(Turn(t, k - 1));
    forall j: nat | j < k - 1 ensures Dispatch(Turn(t, j)).1 != Some(i) { NotYet(t, i, k, j); }
  }

  lemma NotYet(t: Table, i: nat, k: nat, j: nat)
    requires Placed(t) && i < |t.procs| && j + 1 < k <= |t.procs| && (From(t) + k) % |t.procs| == i
    ensures Dispatch(Turn(t, j)).1 != Some(i)
  {
    TurnAt(t, j);
    TurnAt(t, j + 1);
    ModApart(From(t), j + 1, k, |t.procs|);
    StopsAt(Turn(t, j));
  }

  /** A round enters the process it stops at, if that is ready, and no other. */
  lemma StopsAt(t: Table)
    requires Placed(t)
    ensures var u := Schedule(t, []);
            && u.current.Some? && u.current.value < |t.procs| == |u.procs|
            && Dispatch(t).1 == if t.procs[u.current.value].state == Ready then u.current else None
    ensures var i := Schedule(t, []).current.value;
            t.procs[i].state == Ready ==> Schedule(t, []).procs[i].state == Terminated
  {}
}
