/**
 What the runs of CreationRuns leave in the run ring of REPLAY-OS (task.c). Without a race for
 descriptors, memory is one ring after every load and store; when all calls have returned, each is
 in the ring with a descriptor of its own exactly if there was no race for descriptors and none for
 the head's link.
 */
module CreationRing {
  import opened Options
  import opened RunRing
  import opened Creations
  import opened CreationRuns
  import opened CreationSteps

  // ------------------------------------------------------------------------ whole runs

  lemma BegunRing(w: World, ring: seq<nat>)
    requires Begun(w, ring)
    ensures RingKnown(w, w.desc, ring, w.nextPid)
  {
    assert Links(w.desc, ring, 0);
    assert CountedCalls(w) == {};
    forall a: nat ensures SameNext(w, w.desc, a) {}
    forall c: nat ensures LoadedNext(w, w.desc, c) && CallActs(w, c) && SinceOk(w, c) {}
    forall t: nat ensures CallerOk(w, t) {}
  }

  lemma {:induction false} RunKeepsRing(w: World, schedule: seq<nat>, base: map<nat, Desc>, ring: seq<nat>, first: nat)
    requires Logged(w) && SlotsKnown(w, first) && (SlotRace(w.log) || RingKnown(w, base, ring, first))
    requires forall i :: 0 <= i < |schedule| ==> schedule[i] < |w.calls|
    ensures var r := Run(w, schedule); SlotRace(r.log) || RingKnown(r, base, ring, first)
    decreases |schedule|
  {
    if schedule != [] {
      ExecLogged(w, schedule[0]);
      ExecSlots(w, first, schedule[0]);
      RaceStays(w, schedule[0]);
      if !SlotRace(w.log) { ExecRing(w, base, ring, first, schedule[0]); }
      RunKeepsRing(Exec(w, schedule[0]), schedule[1..], base, ring, first);
    }
  }

  /** The ring as the history of links and publications has it. */
  function RingOf(w: World, ring: seq<nat>): (r: seq<nat>)
    requires ring != []
    ensures r != [] && r[0] == w.head
  {
    [w.head] + After(ring, w.acts).tail
  }

  lemma NextIsRing(mem: map<nat, Desc>, desc: map<nat, Desc>, r: seq<nat>)
    requires IsRing(mem, r)
    requires forall i :: 0 <= i < |r| ==> r[i] in mem && r[i] in desc && desc[r[i]].next == mem[r[i]].next
    ensures IsRing(desc, r)
  {
    forall i: nat ensures Links(desc, r, i) { assert Links(mem, r, i); }
  }

  lemma KnownIsRing(w: World, base: map<nat, Desc>, ring: seq<nat>, first: nat)
    requires IsRing(base, ring) && SlotsApart(w, first) && RingKnown(w, base, ring, first)
    ensures IsRing(w.desc, RingOf(w, ring))
  {
    var mem, r := Memory(base, w.head, w.acts), RingOf(w, ring);
    AlwaysGood(base, ring, w.acts);
    AlwaysOneRing(base, ring, w.acts);
    NotWritingHead(w, ring, first);
    forall i | 0 <= i < |r| ensures r[i] in mem && r[i] in w.desc && w.desc[r[i]].next == mem[r[i]].next {
      assert Links(mem, r, i) && SameNext(w, mem, r[i]);
      if i > 0 { TailNotWriting(w, ring, first, r[i]); }
    }
    NextIsRing(mem, w.desc, r);
  }

  lemma TailNotWriting(w: World, ring: seq<nat>, first: nat, t: nat)
    requires ring != [] && SlotsApart(w, first) && ActsOk(w, ring) && t in Known(ring, w.acts)
    requires forall i :: 0 <= i < |ring| ==> ring[i] < Address(first)
    ensures !Writing(w, t)
  {
    if Writing(w, t) {
      var c: nat :| c < |w.calls| && w.calls[c].place.ToLink? && w.calls[c].slot == t;
      assert CallActs(w, c);
      Slots(w, ring, first, c);
    }
  }

  /** After every load and store of any run, memory is one ring unless two calls have raced for a descriptor. */
  lemma OneRingUntilSlotRace(w: World, ring: seq<nat>, schedule: seq<nat>)
    requires Begun(w, ring) && forall i :: 0 <= i < |schedule| ==> schedule[i] < |w.calls|
    ensures var r := Run(w, schedule); SlotRace(r.log) || IsRing(r.desc, RingOf(r, ring))
  {
    ReachedRing(w, ring, schedule);
    var r := Run(w, schedule);
    if !SlotRace(r.log) { KnownIsRing(r, w.desc, ring, w.nextPid); }
  }

  lemma ReachedRing(w: World, ring: seq<nat>, schedule: seq<nat>)
    requires Begun(w, ring) && forall i :: 0 <= i < |schedule| ==> schedule[i] < |w.calls|
    ensures var r := Run(w, schedule);
            && Logged(r) && SlotsKnown(r, w.nextPid)
            && (SlotRace(r.log) || RingKnown(r, w.desc, ring, w.nextPid))
  {
    BegunKnown(w, ring);
    BegunRing(w, ring);
    RunKnown(w, schedule, w.nextPid);
    RunKeepsRing(w, schedule, w.desc, ring, w.nextPid);
  }

  /** One ring with every old entry and, for every call, a descriptor of its own. */
  ghost predicate EveryoneIn(w: World, ring: seq<nat>, r: seq<nat>) {
    && IsRing(w.desc, r) && r[0] == w.head && (forall x :: x in ring ==> x in r)
    && (forall c :: 0 <= c < |w.calls| ==> w.calls[c].slot in r)
    && (forall c, d :: 0 <= c < d < |w.calls| ==> w.calls[c].slot != w.calls[d].slot)
  }

  /**
   When all calls have returned, memory is one ring that holds every entry if and only if no call
   computed its descriptor between another's lines 21 and 22, and none published over another's
   publication.
   */
  lemma EveryoneInExactlyWhen(w: World, ring: seq<nat>, schedule: seq<nat>)
    requires Begun(w, ring) && forall i :: 0 <= i < |schedule| ==> schedule[i] < |w.calls|
    requires Finished(Run(w, schedule))
    ensures var r := Run(w, schedule);
            (exists all :: EveryoneIn(r, ring, all)) <==> !SlotRace(r.log) && !PublishRace(r.log)
  {
    var r := Run(w, schedule);
    ReachedRing(w, ring, schedule);
    if all :| EveryoneIn(r, ring, all) {
      OwnSlots(r, ring, all);
      EveryoneNoRace(r, w.desc, ring, w.nextPid, all);
    }
    if !SlotRace(r.log) && !PublishRace(r.log) {
      NoRaceEveryone(r, w.desc, ring, w.nextPid);
    }
  }

  lemma OwnSlots(w: World, ring: seq<nat>, all: seq<nat>)
    requires EveryoneIn(w, ring, all)
    ensures !SlotClash(w)
  {
    forall c: nat, d: nat ensures !SameSlot(w, c, d) {}
  }

  lemma PublishedHere(w: World, ring: seq<nat>, t: nat)
    requires ActsOk(w, ring) && Finished(w)
    ensures t in Published(w.acts) <==> exists c :: 0 <= c < |w.calls| && w.calls[c].slot == t
  {
    assert CallerOk(w, t);
    if t in Published(w.acts) {
      var c: nat :| c < |w.calls| && HasLoaded(w.calls[c].place) && w.calls[c].slot == t;
    }
    if c :| 0 <= c < |w.calls| && w.calls[c].slot == t {
      assert CallActs(w, c);
    }
  }

  lemma EveryoneNoRace(w: World, base: map<nat, Desc>, ring: seq<nat>, first: nat, all: seq<nat>)
    requires IsRing(base, ring) && SlotsApart(w, first) && RingKnown(w, base, ring, first) && Finished(w)
    requires EveryoneIn(w, ring, all)
    ensures !PublishRace(w.log)
  {
    KnownIsRing(w, base, ring, first);
    OneRingOnly(w.desc, RingOf(w, ring), all);
    forall x | x in ring || x in Published(w.acts) ensures x in RingOf(w, ring) {
      PublishedHere(w, ring, x);
    }
    NothingLostExactlyWhen(base, ring, w.acts);
  }

  lemma NoRaceEveryone(w: World, base: map<nat, Desc>, ring: seq<nat>, first: nat)
    requires IsRing(base, ring) && SlotsApart(w, first) && RingKnown(w, base, ring, first) && Finished(w)
    requires !PublishRace(w.log)
    ensures EveryoneIn(w, ring, RingOf(w, ring))
  {
    KnownIsRing(w, base, ring, first);
    NothingLostExactlyWhen(base, ring, w.acts);
    forall c | 0 <= c < |w.calls| ensures w.calls[c].slot in RingOf(w, ring) {
      PublishedHere(w, ring, w.calls[c].slot);
    }
    forall c, d | 0 <= c < d < |w.calls| ensures w.calls[c].slot != w.calls[d].slot {
      assert !SameSlot(w, c, d);
    }
  }

  // ----------------------------------------------------------------- the descriptors

  /** Call c's stores into its descriptor, as far as it has come. */
  ghost predicate Filled(w: World, c: nat) {
    c < |w.calls| && HasCounted(w.calls[c].place) ==>
      var k := w.calls[c];
      && k.slot in w.desc && Address(w.desc[k.slot].pid) == k.slot
      && (!k.place.ToReady? ==> w.desc[k.slot].state == TaskReady)
      && (k.place.ToLoad? || HasLoaded(k.place) ==> w.desc[k.slot].stackPtr == StackTop(k.frame))
  }

  ghost predicate AllFilled(w: World) {
    forall d: nat {:trigger Filled(w, d)} :: Filled(w, d)
  }

  lemma FilledByOthers(w: World, c: nat, d: nat)
    requires c < |w.calls| && c != d && Filled(w, d)
    requires d < |w.calls| && HasCounted(w.calls[d].place) && !w.calls[c].place.ToSlot? ==>
               w.calls[c].slot != w.calls[d].slot
    ensures Filled(Exec(w, c), d)
  {}

  lemma FilledItself(w: World, first: nat, c: nat)
    requires c < |w.calls| && Filled(w, c) && SlotOk(w, first, c)
    ensures Filled(Exec(w, c), c)
  {}

  lemma ExecFilled(w: World, first: nat, c: nat)
    requires SlotsApart(w, first) && c < |w.calls|
    requires AllFilled(w)
    ensures AllFilled(Exec(w, c))
  {
    assert SlotOk(w, first, c);
    forall d: nat ensures Filled(Exec(w, c), d) {
      assert Filled(w, d) && !SameSlot(w, c, d);
      if d == c { FilledItself(w, first, c); } else { FilledByOthers(w, c, d); }
    }
  }

  lemma {:induction false} RunFilled(w: World, schedule: seq<nat>, first: nat)
    requires Logged(w) && SlotsKnown(w, first)
    requires SlotRace(w.log) || AllFilled(w)
    requires forall i :: 0 <= i < |schedule| ==> schedule[i] < |w.calls|
    ensures var r := Run(w, schedule); SlotRace(r.log) || AllFilled(r)
    decreases |schedule|
  {
    if schedule != [] {
      ExecLogged(w, schedule[0]);
      ExecSlots(w, first, schedule[0]);
      RaceStays(w, schedule[0]);
      if !SlotRace(w.log) { ExecFilled(w, first, schedule[0]); }
      RunFilled(Exec(w, schedule[0]), schedule[1..], first);
    }
  }

  /** Without a race for descriptors every call leaves its own, with its own pid, ready, on the stack it was given. */
  lemma DescriptorsOwn(w: World, ring: seq<nat>, schedule: seq<nat>, c: nat)
    requires Begun(w, ring) && forall i :: 0 <= i < |schedule| ==> schedule[i] < |w.calls|
    requires c < |w.calls| && Run(w, schedule).calls[c].place.Done? && !SlotRace(Run(w, schedule).log)
    ensures var r := Run(w, schedule); var k := r.calls[c];
            && k.slot in r.desc && Address(r.desc[k.slot].pid) == k.slot
            && r.desc[k.slot].state == TaskReady
            && r.desc[k.slot].stackPtr == (if k.frame.Some? then 4096 * k.frame.value else 0) + 3928
  {
    BegunKnown(w, ring);
    forall d: nat ensures Filled(w, d) {}
    RunFilled(w, schedule, w.nextPid);
    assert Filled(Run(w, schedule), c);
  }

  // -------------------------------------------------------------- who is lost, and who is not

  /** Whoever raced for the head, the old entries and the one published last are in the ring. */
  lemma NeverLost(w: World, ring: seq<nat>, schedule: seq<nat>)
    requires Begun(w, ring) && forall i :: 0 <= i < |schedule| ==> schedule[i] < |w.calls|
    requires !SlotRace(Run(w, schedule).log)
    ensures var r := Run(w, schedule);
            && (forall x :: x in ring ==> x in RingOf(r, ring))
            && (Latest(r.log).Some? ==> Latest(r.log).value < |r.calls|
                                        && r.calls[Latest(r.log).value].slot in RingOf(r, ring))
  {
    var r := Run(w, schedule);
    ReachedRing(w, ring, schedule);
    OneRingUntilSlotRace(w, ring, schedule);
    OldStay(ring, r.acts);
    assert Links(r.desc, RingOf(r, ring), 0);
    assert ring == [ring[0]] + ring[1..];
  }

  /** Of two calls that returned, racing for the head alone loses exactly the one that published first. */
  lemma OverlappingCreationsLoseATask(w: World, ring: seq<nat>, schedule: seq<nat>, last: nat)
    requires Begun(w, ring) && |w.calls| == 2 && forall i :: 0 <= i < |schedule| ==> schedule[i] < 2
    requires Finished(Run(w, schedule)) && !SlotRace(Run(w, schedule).log) && PublishRace(Run(w, schedule).log)
    requires Latest(Run(w, schedule).log) == Some(last)
    ensures var r := Run(w, schedule);
            && last < 2 && IsRing(r.desc, RingOf(r, ring))
            && (forall x :: x in ring ==> x in RingOf(r, ring))
            && r.calls[last].slot in RingOf(r, ring) && r.calls[1 - last].slot !in RingOf(r, ring)
  {
    NeverLost(w, ring, schedule);
    OneRingUntilSlotRace(w, ring, schedule);
    EveryoneInExactlyWhen(w, ring, schedule);
    ReachedRing(w, ring, schedule);
    OneLost(Run(w, schedule), ring, w.nextPid, last, RingOf(Run(w, schedule), ring));
  }

  lemma OneLost(w: World, ring: seq<nat>, first: nat, last: nat, all: seq<nat>)
    requires SlotsApart(w, first) && Finished(w) && |w.calls| == 2 && last < 2
    requires IsRing(w.desc, all) && all[0] == w.head && (forall x :: x in ring ==> x in all)
    requires w.calls[last].slot in all && !EveryoneIn(w, ring, all)
    ensures w.calls[1 - last].slot !in all
  {
    assert !SameSlot(w, 0, 1);
  }
}
