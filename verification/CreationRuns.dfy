/**
 Any number of task_create calls under way at once, as runs of their loads and stores (task.c and
 pmm.c of REPLAY-OS). The timer may switch between any two of them, so a run is any order that keeps
 each call's own. Here are the runs, the races that can happen in them, and the first law: until
 there is a race for descriptors every call has its own, and from then on two calls share one.
 */
module CreationRuns {
  import opened Options
  import opened RunRing
  import opened Creations

  /** What a call does next; the lines are those of task.c, and of pmm.c for the frame. */
  datatype Place =
    | ToSlot                     // 21: task = 0x110000 + next_pid * 24
    | ToRead                     // 22: reads next_pid
    | ToCount(pid: nat)          // 22: stores task->pid and next_pid
    | ToReady                    // 23: task->state = TASK_READY
    | ToTest(frame: nat)         // pmm.c 28-29: tests this frame's bit
    | ToMark(frame: nat)         // pmm.c 30: sets it
    | ToStack                    // 40: task->stack_ptr = stack
    | ToLoad                     // 41: reads task_list->next
    | ToLink(next: nat)          // 41: stores task->next
    | ToPublish                  // 42: task_list->next = task
    | Done

  /** One call: where it is, its descriptor, and the frame it was given; None is null. */
  datatype Call = Call(place: Place, slot: nat, frame: Option<nat>)

  datatype Kind = GotSlot | Counted | Tested | Marked | Loaded | Posted

  datatype Event = Event(kind: Kind, c: nat)

  /**
   head is task_list; frames 0 .. total - 1 exist and `free` are those whose bit is clear. `log` and
   `acts` are history: what each call has done, and the link and publish stores by descriptor.
   */
  datatype World = World(head: nat, total: nat, nextPid: nat, desc: map<nat, Desc>, free: set<nat>,
                         calls: seq<Call>, log: seq<Event>, acts: seq<Act>)

  /** Memory where no descriptor was ever written; runs that start in `Begun` never read it. */
  const UNWRITTEN := Desc(0, TaskExited, 0, 0)

  function Get(desc: map<nat, Desc>, a: nat): Desc {
    if a in desc then desc[a] else UNWRITTEN
  }

  function Move(w: World, c: nat, k: Call): World
    requires c < |w.calls|
  {
    w.(calls := w.calls[c := k])
  }

  function Note(w: World, kind: Kind, c: nat): World {
    w.(log := w.log + [Event(kind, c)])
  }

  /** task.c 40: where the twenty words end in the page the allocator returned, page 0 for null. */
  function StackTop(frame: Option<nat>): nat {
    8 * InitialTop(if frame.Some? then frame.value else 0)
  }

  /** Call c does its next load or store. */
  function Exec(w: World, c: nat): (r: World)
    requires c < |w.calls|
    ensures |r.calls| == |w.calls|
  {
    var k := w.calls[c];
    var d := Get(w.desc, k.slot);
    match k.place
    case ToSlot => Note(Move(w, c, k.(place := ToRead, slot := Address(w.nextPid))), GotSlot, c)
    case ToRead => Move(w, c, k.(place := ToCount(w.nextPid)))
    case ToCount(pid) =>
      Note(Move(w.(nextPid := pid + 1, desc := w.desc[k.slot := d.(pid := pid)]), c, k.(place := ToReady)), Counted, c)
    case ToReady => Move(w.(desc := w.desc[k.slot := d.(state := TaskReady)]), c, k.(place := ToTest(0)))
    case ToTest(frame) =>
      if frame >= w.total then Move(w, c, k.(place := ToStack))
      else if frame in w.free then Note(Move(w, c, k.(place := ToMark(frame))), Tested, c)
      else Move(w, c, k.(place := ToTest(frame + 1)))
    case ToMark(frame) =>
      Note(Move(w.(free := w.free - {frame}), c, k.(place := ToStack, frame := Some(frame))), Marked, c)
    case ToStack => Move(w.(desc := w.desc[k.slot := d.(stackPtr := StackTop(k.frame))]), c, k.(place := ToLoad))
    case ToLoad =>
      Note(Move(w.(acts := w.acts + [Link(k.slot)]), c, k.(place := ToLink(Get(w.desc, w.head).next))), Loaded, c)
    case ToLink(next) => Move(w.(desc := w.desc[k.slot := d.(next := next)]), c, k.(place := ToPublish))
    case ToPublish =>
      Note(Move(w.(acts := w.acts + [Publish(k.slot)], desc := w.desc[w.head := Get(w.desc, w.head).(next := k.slot)]),
                c, k.(place := Done)), Posted, c)
    case Done => w
  }

  /** `schedule` says which call goes next. */
  function Run(w: World, schedule: seq<nat>): (r: World)
    requires forall i :: 0 <= i < |schedule| ==> schedule[i] < |w.calls|
    ensures |r.calls| == |w.calls|
    decreases |schedule|
  {
    if schedule == [] then w else Run(Exec(w, schedule[0]), schedule[1..])
  }

  /** The start: one ring, descriptor memory for every call, and no call has begun. */
  ghost predicate Begun(w: World, ring: seq<nat>) {
    && IsRing(w.desc, ring) && w.head == ring[0] && w.log == [] && w.acts == []
    && (forall i :: 0 <= i < |ring| ==> ring[i] < Address(w.nextPid))
    && (forall k: nat :: w.nextPid <= k < w.nextPid + |w.calls| ==> Address(k) in w.desc)
    && (forall x :: x in w.free ==> 0 < x < w.total)
    && (forall c :: 0 <= c < |w.calls| ==> w.calls[c].place == ToSlot && w.calls[c].frame == None)
  }

  ghost predicate Finished(w: World) {
    forall c :: 0 <= c < |w.calls| ==> w.calls[c].place == Done
  }

  // ------------------------------------------------------------------------ races

  /** Call c has done `begin` and not yet `end`. */
  ghost predicate Open(log: seq<Event>, begin: Kind, end: Kind, c: nat) {
    Event(begin, c) in log && Event(end, c) !in log
  }

  ghost predicate RaceAt(log: seq<Event>, begin: Kind, end: Kind, j: nat) {
    j < |log| && log[j].kind == begin && exists c: nat :: Open(log[..j], begin, end, c)
  }

  /** Some call does `begin` while another is between its own `begin` and `end`. */
  ghost predicate Race(log: seq<Event>, begin: Kind, end: Kind) {
    exists j: nat :: RaceAt(log, begin, end, j)
  }

  /** A call computes its descriptor's address between another's line 21 and the end of its line 22. */
  ghost predicate SlotRace(log: seq<Event>) {
    Race(log, GotSlot, Counted)
  }

  /** A call finds a frame's bit clear between another's successful test and its store. */
  ghost predicate FrameRace(log: seq<Event>) {
    Race(log, Tested, Marked)
  }

  ghost predicate PostedBetween(log: seq<Event>, c: nat, i: nat, j: nat) {
    i < j < |log| && log[i] == Event(Loaded, c) && log[j].kind == Posted
  }

  /** Another call has published since c read task_list->next. */
  ghost predicate PostedSince(log: seq<Event>, c: nat) {
    exists i: nat, j: nat :: PostedBetween(log, c, i, j)
  }

  ghost predicate PublishRaceAt(log: seq<Event>, k: nat) {
    k < |log| && log[k].kind == Posted && PostedSince(log[..k], log[k].c)
  }

  /** Some call publishes over another's publication. */
  ghost predicate PublishRace(log: seq<Event>) {
    exists k: nat :: PublishRaceAt(log, k)
  }

  lemma SameRaceAt(log: seq<Event>, e: Event, begin: Kind, end: Kind, j: nat)
    requires j < |log|
    ensures RaceAt(log + [e], begin, end, j) <==> RaceAt(log, begin, end, j)
  {
    assert (log + [e])[..j] == log[..j];
  }

  lemma RaceGrows(log: seq<Event>, e: Event, begin: Kind, end: Kind)
    ensures Race(log + [e], begin, end)
            <==> Race(log, begin, end) || (e.kind == begin && exists c: nat :: Open(log, begin, end, c))
  {
    var more := log + [e];
    assert more[..|log|] == log;
    assert RaceAt(more, begin, end, |log|) <==> e.kind == begin && exists c: nat :: Open(log, begin, end, c);
    if Race(log, begin, end) {
      var j: nat :| RaceAt(log, begin, end, j);
      SameRaceAt(log, e, begin, end, j);
    }
    if Race(more, begin, end) {
      var j: nat :| RaceAt(more, begin, end, j);
      if j < |log| { SameRaceAt(log, e, begin, end, j); }
    }
  }

  lemma PostedSinceGrows(log: seq<Event>, e: Event, c: nat)
    ensures PostedSince(log + [e], c) <==> PostedSince(log, c) || (e.kind == Posted && Event(Loaded, c) in log)
  {
    var more := log + [e];
    if PostedSince(log, c) {
      var i: nat, j: nat :| PostedBetween(log, c, i, j);
      assert PostedBetween(more, c, i, j);
    }
    if e.kind == Posted && Event(Loaded, c) in log {
      var i :| 0 <= i < |log| && log[i] == Event(Loaded, c);
      assert PostedBetween(more, c, i, |log|);
    }
    if PostedSince(more, c) {
      var i: nat, j: nat :| PostedBetween(more, c, i, j);
      assert j < |log| ==> PostedBetween(log, c, i, j);
      assert more[i] == log[i];
    }
  }

  lemma PublishRaceGrows(log: seq<Event>, e: Event)
    ensures PublishRace(log + [e]) <==> PublishRace(log) || (e.kind == Posted && PostedSince(log, e.c))
  {
    var more := log + [e];
    assert more[..|log|] == log;
    forall k: nat | k < |log| ensures PublishRaceAt(more, k) <==> PublishRaceAt(log, k) {
      assert more[..k] == log[..k];
    }
    if PublishRace(log) {
      var k: nat :| PublishRaceAt(log, k);
      assert PublishRaceAt(more, k);
    }
    if e.kind == Posted && PostedSince(log, e.c) { assert PublishRaceAt(more, |log|); }
    if PublishRace(more) {
      var k: nat :| PublishRaceAt(more, k);
      assert k < |log| ==> PublishRaceAt(log, k);
    }
  }

  // ------------------------------------------------------- places and what was logged

  predicate Between(p: Place) {
    p.ToRead? || p.ToCount?
  }

  predicate HasCounted(p: Place) {
    !p.ToSlot? && !Between(p)
  }

  predicate HasLoaded(p: Place) {
    p.ToLink? || p.ToPublish? || p.Done?
  }

  ghost predicate CallLogged(w: World, c: nat) {
    c < |w.calls| ==>
      var k := w.calls[c];
      && (Event(GotSlot, c) in w.log <==> !k.place.ToSlot?)
      && (Event(Counted, c) in w.log <==> HasCounted(k.place))
      && (Event(Tested, c) in w.log <==> k.place.ToMark? || k.frame.Some?)
      && (Event(Marked, c) in w.log <==> k.frame.Some?)
      && (Event(Loaded, c) in w.log <==> HasLoaded(k.place))
      && (Event(Posted, c) in w.log <==> k.place.Done?)
      && (k.frame.Some? ==> k.place.ToStack? || k.place.ToLoad? || HasLoaded(k.place))
  }

  ghost predicate Logged(w: World) {
    && (forall c: nat {:trigger CallLogged(w, c)} :: CallLogged(w, c))
    && (forall e :: e in w.log ==> e.c < |w.calls|)
  }

  lemma OtherLogged(w: World, r: World, c: nat, d: nat)
    requires CallLogged(w, d) && d != c && |r.calls| == |w.calls| && (d < |w.calls| ==> r.calls[d] == w.calls[d])
    requires forall e: Event :: e.c == d ==> (e in r.log <==> e in w.log)
    ensures CallLogged(r, d)
  {}

  /** Only call c moves, and at most one event, of its own, is logged. */
  lemma ExecShape(w: World, c: nat)
    requires c < |w.calls|
    ensures var r := Exec(w, c);
            && r.head == w.head && r.total == w.total && |r.calls| == |w.calls|
            && (forall d :: 0 <= d < |w.calls| && d != c ==> r.calls[d] == w.calls[d])
            && (r.log == w.log || exists kind :: r.log == w.log + [Event(kind, c)])
  {}

  lemma OwnLoggedEarly(w: World, c: nat)
    requires CallLogged(w, c) && c < |w.calls| && !HasCounted(w.calls[c].place)
    ensures CallLogged(Exec(w, c), c)
  {}

  lemma OwnLoggedLate(w: World, c: nat)
    requires CallLogged(w, c) && c < |w.calls| && HasLoaded(w.calls[c].place)
    ensures CallLogged(Exec(w, c), c)
  {}

  lemma OwnLogged(w: World, c: nat)
    requires CallLogged(w, c) && c < |w.calls|
    ensures CallLogged(Exec(w, c), c)
  {
    if !HasCounted(w.calls[c].place) {
      OwnLoggedEarly(w, c);
    } else if HasLoaded(w.calls[c].place) {
      OwnLoggedLate(w, c);
    }
  }

  lemma ExecLogged(w: World, c: nat)
    requires Logged(w) && c < |w.calls|
    ensures Logged(Exec(w, c))
  {
    var r := Exec(w, c);
    ExecShape(w, c);
    forall d: nat ensures CallLogged(r, d) {
      assert CallLogged(w, d);
      if d == c { OwnLogged(w, c); } else { OtherLogged(w, r, c, d); }
    }
  }

  // ------------------------------------------------------------------ descriptors

  ghost predicate SlotOk(w: World, first: nat, c: nat) {
    c < |w.calls| && !w.calls[c].place.ToSlot? ==>
      var k := w.calls[c];
      && Address(first) <= k.slot
      && (if Between(k.place) then k.slot == Address(w.nextPid) else k.slot < Address(w.nextPid))
      && (k.place.ToCount? ==> k.place.pid == w.nextPid)
  }

  ghost predicate SameSlot(w: World, c: nat, d: nat) {
    && c < |w.calls| && d < |w.calls| && c != d && !w.calls[c].place.ToSlot? && !w.calls[d].place.ToSlot?
    && w.calls[c].slot == w.calls[d].slot
  }

  ghost predicate SlotsApart(w: World, first: nat) {
    && first <= w.nextPid
    && (forall c: nat {:trigger SlotOk(w, first, c)} :: SlotOk(w, first, c))
    && (forall c: nat, d: nat {:trigger SameSlot(w, c, d)} :: !SameSlot(w, c, d))
  }

  ghost predicate SlotClash(w: World) {
    exists c: nat, d: nat :: SameSlot(w, c, d)
  }

  /** Up to the first race every descriptor is one call's own; from then on two calls share one. */
  ghost predicate SlotsKnown(w: World, first: nat) {
    if SlotRace(w.log) then SlotClash(w) else SlotsApart(w, first)
  }

  lemma SlotOpen(w: World, c: nat)
    requires Logged(w)
    ensures Open(w.log, GotSlot, Counted, c) <==> c < |w.calls| && Between(w.calls[c].place)
  {
    assert CallLogged(w, c);
  }

  lemma GetSlotKnown(w: World, first: nat, c: nat)
    requires Logged(w) && SlotsKnown(w, first) && c < |w.calls| && w.calls[c].place.ToSlot?
    ensures SlotsKnown(Exec(w, c), first)
  {
    var r := Exec(w, c);
    RaceGrows(w.log, Event(GotSlot, c), GotSlot, Counted);
    if SlotRace(w.log) {
      var d: nat, e: nat :| SameSlot(w, d, e);
      assert SameSlot(r, d, e);
    } else if d: nat :| Open(w.log, GotSlot, Counted, d) {
      SlotOpen(w, d);
      assert SlotOk(w, first, d);
      assert SameSlot(r, d, c);
    } else {
      forall d: nat ensures SlotOk(r, first, d) {
        SlotOpen(w, d);
        assert SlotOk(w, first, d);
      }
      forall d: nat, e: nat ensures !SameSlot(r, d, e) {
        SlotOpen(w, d);
        SlotOpen(w, e);
        assert SlotOk(w, first, d) && SlotOk(w, first, e) && !SameSlot(w, d, e);
      }
    }
  }

  lemma OtherSlotsKnown(w: World, first: nat, c: nat)
    requires Logged(w) && SlotsKnown(w, first) && c < |w.calls| && !w.calls[c].place.ToSlot?
    ensures SlotsKnown(Exec(w, c), first)
  {
    var r := Exec(w, c);
    StaySlots(w, c);
    if SlotRace(w.log) {
      var d: nat, e: nat :| SameSlot(w, d, e);
      assert SameSlot(r, d, e);
    } else {
      forall d: nat ensures SlotOk(r, first, d) {
        assert SlotOk(w, first, c) && SlotOk(w, first, d) && !SameSlot(w, c, d);
        if w.calls[c].place.ToCount? { CountSlot(w, first, c, d); } else { StaySlot(w, first, c, d); }
      }
      forall d: nat, e: nat ensures !SameSlot(r, d, e) {
        assert !SameSlot(w, d, e);
      }
      assert SlotOk(w, first, c);
    }
  }

  /** Slots, once computed, stay; and no race begins. */
  lemma StaySlots(w: World, c: nat)
    requires c < |w.calls| && !w.calls[c].place.ToSlot?
    ensures var r := Exec(w, c);
            && (forall d: nat, e: nat {:trigger SameSlot(r, d, e)} :: SameSlot(r, d, e) <==> SameSlot(w, d, e))
            && (SlotRace(r.log) <==> SlotRace(w.log))
  {
    StayApart(w, c);
  }

  lemma StayApart(w: World, c: nat)
    requires c < |w.calls| && !w.calls[c].place.ToSlot?
    ensures SlotRace(Exec(w, c).log) <==> SlotRace(w.log)
  {
    var r := Exec(w, c);
    if r.log != w.log { RaceGrows(w.log, r.log[|w.log|], GotSlot, Counted); }
  }

  lemma CountSlot(w: World, first: nat, c: nat, d: nat)
    requires c < |w.calls| && w.calls[c].place.ToCount? && SlotOk(w, first, c) && SlotOk(w, first, d)
    requires !SameSlot(w, c, d)
    ensures SlotOk(Exec(w, c), first, d)
  {}

  lemma StaySlot(w: World, first: nat, c: nat, d: nat)
    requires c < |w.calls| && !w.calls[c].place.ToSlot? && !w.calls[c].place.ToCount?
    requires SlotOk(w, first, c) && SlotOk(w, first, d)
    ensures SlotOk(Exec(w, c), first, d)
  {}

  lemma ExecSlots(w: World, first: nat, c: nat)
    requires Logged(w) && SlotsKnown(w, first) && c < |w.calls|
    ensures SlotsKnown(Exec(w, c), first)
  {
    if w.calls[c].place.ToSlot? { GetSlotKnown(w, first, c); } else { OtherSlotsKnown(w, first, c); }
  }

  // ---------------------------------------------------------------- over whole runs

  lemma BegunKnown(w: World, ring: seq<nat>)
    requires Begun(w, ring)
    ensures Logged(w) && SlotsKnown(w, w.nextPid)
  {
    forall c: nat ensures CallLogged(w, c) {}
  }

  lemma {:induction false} RunKnown(w: World, schedule: seq<nat>, first: nat)
    requires Logged(w) && SlotsKnown(w, first)
    requires forall i :: 0 <= i < |schedule| ==> schedule[i] < |w.calls|
    ensures var r := Run(w, schedule); Logged(r) && SlotsKnown(r, first)
    decreases |schedule|
  {
    if schedule != [] {
      ExecLogged(w, schedule[0]);
      ExecSlots(w, first, schedule[0]);
      RunKnown(Exec(w, schedule[0]), schedule[1..], first);
    }
  }

  lemma RaceStays(w: World, c: nat)
    requires c < |w.calls|
    ensures var r := Exec(w, c);
            && (SlotRace(w.log) ==> SlotRace(r.log)) && (FrameRace(w.log) ==> FrameRace(r.log))
  {
    var r := Exec(w, c);
    ExecShape(w, c);
    if r.log != w.log {
      var kind :| r.log == w.log + [Event(kind, c)];
      RaceGrows(w.log, Event(kind, c), GotSlot, Counted);
      RaceGrows(w.log, Event(kind, c), Tested, Marked);
    }
  }
}
