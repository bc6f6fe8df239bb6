/**
 One load or store of the runs of CreationRuns at a time: the invariant that ties the links in
 memory to the atomic link and publish stores of Creations, and why every step keeps it as long as
 the calls have descriptors of their own.
 */
module CreationSteps {
  import opened Options
  import opened RunRing
  import opened Creations
  import opened CreationRuns

  /** Some call has read the head's link and is about to store it into descriptor a. */
  ghost predicate Writing(w: World, a: nat) {
    exists c: nat :: c < |w.calls| && w.calls[c].place.ToLink? && w.calls[c].slot == a
  }

  ghost predicate SameNext(w: World, mem: map<nat, Desc>, a: nat) {
    a in mem ==> a in w.desc && (Writing(w, a) || w.desc[a].next == mem[a].next)
  }

  ghost predicate LoadedNext(w: World, mem: map<nat, Desc>, c: nat) {
    c < |w.calls| && !w.calls[c].place.ToSlot? ==>
      var k := w.calls[c]; k.slot in mem && (k.place.ToLink? ==> k.place.next == mem[k.slot].next)
  }

  /** The links in memory are those of the atomic stores, up to the ones still on their way. */
  ghost predicate Agrees(w: World, mem: map<nat, Desc>) {
    && w.head in mem
    && (forall a: nat {:trigger SameNext(w, mem, a)} :: SameNext(w, mem, a))
    && (forall c: nat {:trigger LoadedNext(w, mem, c)} :: LoadedNext(w, mem, c))
  }

  ghost predicate CallActs(w: World, c: nat) {
    c < |w.calls| && !w.calls[c].place.ToSlot? ==>
      var k := w.calls[c];
      (k.slot in Linked(w.acts) <==> HasLoaded(k.place)) && (k.slot in Published(w.acts) <==> k.place.Done?)
  }

  /** Descriptor t was linked by one of the calls. */
  ghost predicate Caller(w: World, t: nat) {
    exists c: nat :: c < |w.calls| && HasLoaded(w.calls[c].place) && w.calls[c].slot == t
  }

  ghost predicate CallerOk(w: World, t: nat) {
    t in Linked(w.acts) ==> Caller(w, t)
  }

  ghost predicate ActsOk(w: World, ring: seq<nat>) {
    && Proper(ring, w.acts) && Published(w.acts) <= Linked(w.acts)
    && (forall c: nat {:trigger CallActs(w, c)} :: CallActs(w, c))
    && (forall t: nat {:trigger CallerOk(w, t)} :: CallerOk(w, t))
  }

  ghost predicate SinceOk(w: World, c: nat) {
    c < |w.calls| && HasLoaded(w.calls[c].place) && !w.calls[c].place.Done? ==>
      (PostedSince(w.log, c) <==> PublishSince(w.acts, w.calls[c].slot))
  }

  /** The race for the head's link, told by call and told by descriptor. */
  ghost predicate RacesAgree(w: World) {
    && (PublishRace(w.log) <==> Overlaps(w.acts))
    && (forall c: nat {:trigger SinceOk(w, c)} :: SinceOk(w, c))
  }

  function CountedCalls(w: World): set<nat> {
    set c | 0 <= c < |w.calls| && HasCounted(w.calls[c].place)
  }

  /** The call that published last. */
  function Latest(log: seq<Event>): Option<nat> {
    if log == [] then None
    else if log[|log| - 1].kind == Posted then Some(log[|log| - 1].c)
    else Latest(log[..|log| - 1])
  }

  /** The head leads to the entry published last. */
  ghost predicate HeadOk(w: World) {
    && w.head in w.desc
    && (Latest(w.log).Some? ==>
          var c := Latest(w.log).value;
          c < |w.calls| && w.calls[c].place.Done? && w.desc[w.head].next == w.calls[c].slot)
  }

  ghost predicate RingKnown(w: World, base: map<nat, Desc>, ring: seq<nat>, first: nat) {
    && ring != [] && w.head == ring[0] && (forall i :: 0 <= i < |ring| ==> ring[i] < Address(first))
    && w.head in base && Described(base, w.acts) && Agrees(w, Memory(base, w.head, w.acts))
    && ActsOk(w, ring) && RacesAgree(w)
    && HeadOk(w) && w.nextPid == first + |CountedCalls(w)|
    && (forall k: nat :: first <= k < first + |w.calls| ==> Address(k) in base)
  }

  ghost predicate OwnSlot(w: World, c: nat)
    requires c < |w.calls|
  {
    forall d :: 0 <= d < |w.calls| && d != c && !w.calls[d].place.ToSlot? ==> w.calls[d].slot != w.calls[c].slot
  }

  // ---------------------------------------------------------------- steps that link nothing

  /** Nothing that matters to the ring has changed but perhaps call c's own slot. */
  ghost predicate Quiet(w: World, r: World, c: nat) {
    && r.head == w.head && r.acts == w.acts && |r.calls| == |w.calls| && c < |w.calls|
    && (forall d :: 0 <= d < |w.calls| && d != c ==> r.calls[d] == w.calls[d])
    && !HasLoaded(w.calls[c].place) && !HasLoaded(r.calls[c].place) && !r.calls[c].place.ToSlot?
    && (forall a :: a in w.desc ==> a in r.desc && r.desc[a].next == w.desc[a].next)
    && (r.log == w.log || exists kind :: kind != Loaded && kind != Posted && r.log == w.log + [Event(kind, c)])
  }

  lemma QuietStep(w: World, c: nat)
    requires c < |w.calls| && w.calls[c].place != Done
    requires !w.calls[c].place.ToLoad? && !w.calls[c].place.ToLink? && !w.calls[c].place.ToPublish?
    requires w.calls[c].place.ToSlot? || w.calls[c].slot in w.desc
    ensures Quiet(w, Exec(w, c), c)
  {
    var r := Exec(w, c);
    if r.log != w.log {
      assert r.log == w.log + [Event(r.log[|w.log|].kind, c)];
    }
  }

  lemma QuietAgrees(w: World, r: World, c: nat, mem: map<nat, Desc>)
    requires Quiet(w, r, c) && Agrees(w, mem) && r.calls[c].slot in mem
    ensures Agrees(r, mem)
  {
    forall a: nat ensures SameNext(r, mem, a) {
      assert SameNext(w, mem, a);
      if Writing(w, a) {
        var d: nat :| d < |w.calls| && w.calls[d].place.ToLink? && w.calls[d].slot == a;
        assert r.calls[d].place.ToLink? && r.calls[d].slot == a;
      }
    }
    forall d: nat ensures LoadedNext(r, mem, d) { assert LoadedNext(w, mem, d); }
  }

  lemma QuietActs(w: World, r: World, c: nat, ring: seq<nat>)
    requires Quiet(w, r, c) && ActsOk(w, ring) && r.calls[c].slot !in Linked(w.acts)
    ensures ActsOk(r, ring)
  {
    forall d: nat ensures CallActs(r, d) { assert CallActs(w, d); }
    forall t: nat ensures CallerOk(r, t) {
      assert CallerOk(w, t);
      if Caller(w, t) {
        var d: nat :| d < |w.calls| && HasLoaded(w.calls[d].place) && w.calls[d].slot == t;
        assert HasLoaded(r.calls[d].place) && r.calls[d].slot == t;
      }
    }
  }

  lemma QuietRaces(w: World, r: World, c: nat)
    requires Quiet(w, r, c) && RacesAgree(w)
    ensures RacesAgree(r)
  {
    if r.log != w.log {
      var kind :| kind != Loaded && kind != Posted && r.log == w.log + [Event(kind, c)];
      PublishRaceGrows(w.log, Event(kind, c));
      forall d: nat ensures SinceOk(r, d) {
        assert SinceOk(w, d);
        PostedSinceGrows(w.log, Event(kind, c), d);
      }
    } else {
      forall d: nat ensures SinceOk(r, d) { assert SinceOk(w, d); }
    }
  }

  // ------------------------------------------------------------------ the three link steps

  lemma LoadAgrees(w: World, c: nat, mem: map<nat, Desc>)
    requires c < |w.calls| && w.calls[c].place.ToLoad? && Agrees(w, mem) && !Writing(w, w.head)
    requires w.calls[c].slot in mem && w.calls[c].slot != w.head
    requires OwnSlot(w, c)
    ensures Agrees(Exec(w, c), Store(mem, w.head, Link(w.calls[c].slot)))
  {
    var r, t := Exec(w, c), w.calls[c].slot;
    var after := Store(mem, w.head, Link(t));
    assert SameNext(w, mem, w.head);
    forall a: nat ensures SameNext(r, after, a) {
      assert SameNext(w, mem, a);
      if a == t {
        assert r.calls[c].place.ToLink? && r.calls[c].slot == a;
      } else if Writing(w, a) {
        var d: nat :| d < |w.calls| && w.calls[d].place.ToLink? && w.calls[d].slot == a;
        assert r.calls[d].place.ToLink? && r.calls[d].slot == a;
      }
    }
    forall d: nat ensures LoadedNext(r, after, d) { assert LoadedNext(w, mem, d); }
  }

  lemma LinkAgrees(w: World, c: nat, mem: map<nat, Desc>)
    requires c < |w.calls| && w.calls[c].place.ToLink? && Agrees(w, mem)
    requires OwnSlot(w, c)
    ensures Agrees(Exec(w, c), mem)
  {
    var r := Exec(w, c);
    assert LoadedNext(w, mem, c);
    forall a: nat ensures SameNext(r, mem, a) {
      assert SameNext(w, mem, a);
      if Writing(w, a) && a != w.calls[c].slot {
        var d: nat :| d < |w.calls| && w.calls[d].place.ToLink? && w.calls[d].slot == a;
        assert r.calls[d].place.ToLink? && r.calls[d].slot == a;
      }
    }
    forall d: nat ensures LoadedNext(r, mem, d) { assert LoadedNext(w, mem, d); }
  }

  lemma PublishAgrees(w: World, c: nat, mem: map<nat, Desc>)
    requires c < |w.calls| && w.calls[c].place.ToPublish? && Agrees(w, mem) && !Writing(w, w.head)
    requires w.calls[c].slot in mem
    requires forall d :: 0 <= d < |w.calls| && !w.calls[d].place.ToSlot? ==> w.calls[d].slot != w.head
    ensures Agrees(Exec(w, c), Store(mem, w.head, Publish(w.calls[c].slot)))
  {
    var r := Exec(w, c);
    var after := Store(mem, w.head, Publish(w.calls[c].slot));
    assert SameNext(w, mem, w.head);
    forall a: nat ensures SameNext(r, after, a) {
      assert SameNext(w, mem, a);
      if Writing(w, a) {
        var d: nat :| d < |w.calls| && w.calls[d].place.ToLink? && w.calls[d].slot == a;
        assert r.calls[d].place.ToLink? && r.calls[d].slot == a;
      }
    }
    forall d: nat ensures LoadedNext(r, after, d) { assert LoadedNext(w, mem, d); }
  }

  /** The link or publish store by call c. */
  ghost predicate ActOf(w: World, c: nat, act: Act) {
    && c < |w.calls| && act.task == w.calls[c].slot
    && (if act.Link? then w.calls[c].place.ToLoad? else w.calls[c].place.ToPublish?)
  }

  /** It is the next proper one. */
  lemma ActGrows(w: World, c: nat, ring: seq<nat>, act: Act)
    requires ActsOk(w, ring) && ActOf(w, c, act) && w.calls[c].slot !in ring && OwnSlot(w, c)
    ensures ActsOk(Exec(w, c), ring) && Exec(w, c).acts == w.acts + [act]
  {
    assert CallActs(w, c);
    ActAppended(w, c, act);
    ProperGrows(ring, w.acts, act);
    AllCallActs(w, Exec(w, c), c, act);
    AllCallers(w, Exec(w, c), c, act);
  }

  lemma ActAppended(w: World, c: nat, act: Act)
    requires ActOf(w, c, act)
    ensures Exec(w, c).acts == w.acts + [act]
  {}

  lemma AllCallActs(w: World, r: World, c: nat, act: Act)
    requires ActOf(w, c, act) && OwnSlot(w, c) && r == Exec(w, c)
    requires forall d: nat {:trigger CallActs(w, d)} :: CallActs(w, d)
    requires Linked(r.acts) == Linked(w.acts) + (if act.Link? then {act.task} else {})
    requires Published(r.acts) == Published(w.acts) + (if act.Publish? then {act.task} else {})
    ensures forall d: nat {:trigger CallActs(r, d)} :: CallActs(r, d)
  {
    assert CallActs(w, c);
    forall d: nat ensures CallActs(r, d) {
      assert CallActs(w, d);
      CallActsGrow(w, r, c, d, act);
    }
  }

  lemma AllCallers(w: World, r: World, c: nat, act: Act)
    requires ActOf(w, c, act) && r == Exec(w, c)
    requires forall t: nat {:trigger CallerOk(w, t)} :: CallerOk(w, t)
    requires Linked(r.acts) == Linked(w.acts) + (if act.Link? then {act.task} else {})
    ensures forall t: nat {:trigger CallerOk(r, t)} :: CallerOk(r, t)
  {
    forall t: nat ensures CallerOk(r, t) {
      assert CallerOk(w, t);
      CallerStays(w, c, act, t);
    }
  }

  lemma CallActsGrow(w: World, r: World, c: nat, d: nat, act: Act)
    requires ActOf(w, c, act) && CallActs(w, c) && CallActs(w, d) && OwnSlot(w, c) && r == Exec(w, c)
    requires Linked(r.acts) == Linked(w.acts) + (if act.Link? then {act.task} else {})
    requires Published(r.acts) == Published(w.acts) + (if act.Publish? then {act.task} else {})
    ensures CallActs(r, d)
  {}

  lemma CallerStays(w: World, c: nat, act: Act, t: nat)
    requires ActOf(w, c, act)
    ensures t == act.task || Caller(w, t) ==> Caller(Exec(w, c), t)
  {
    var r := Exec(w, c);
    if t == act.task {
      assert HasLoaded(r.calls[c].place) && r.calls[c].slot == t;
    } else if Caller(w, t) {
      var d: nat :| d < |w.calls| && HasLoaded(w.calls[d].place) && w.calls[d].slot == t;
      assert HasLoaded(r.calls[d].place) && r.calls[d].slot == t;
    }
  }

  lemma LoadRaces(w: World, c: nat)
    requires Logged(w) && RacesAgree(w) && CallActs(w, c) && c < |w.calls| && w.calls[c].place.ToLoad?
    ensures RacesAgree(Exec(w, c))
  {
    var r, e, act := Exec(w, c), Event(Loaded, c), Link(w.calls[c].slot);
    PublishRaceGrows(w.log, e);
    OverlapsGrows(w.acts, act);
    forall d: nat ensures SinceOk(r, d) {
      if d < |w.calls| {
        assert SinceOk(w, d);
        PostedSinceGrows(w.log, e, d);
        PublishSinceGrows(w.acts, act, w.calls[d].slot);
        if d == c {
          assert CallLogged(w, c);
          NotSince(w.log, w.acts, c, w.calls[c].slot);
        }
      }
    }
  }

  /** Nobody can have published since a read that has not happened. */
  lemma NotSince(log: seq<Event>, acts: seq<Act>, c: nat, t: nat)
    requires Event(Loaded, c) !in log && t !in Linked(acts)
    ensures !PostedSince(log, c) && !PublishSince(acts, t)
  {}

  lemma PublishRaces(w: World, c: nat)
    requires Logged(w) && RacesAgree(w) && c < |w.calls| && w.calls[c].place.ToPublish?
    requires forall d: nat {:trigger CallActs(w, d)} :: CallActs(w, d)
    ensures RacesAgree(Exec(w, c))
  {
    var r, e, act := Exec(w, c), Event(Posted, c), Publish(w.calls[c].slot);
    assert SinceOk(w, c);
    PublishRaceGrows(w.log, e);
    OverlapsGrows(w.acts, act);
    forall d: nat ensures SinceOk(r, d) {
      if d < |w.calls| {
        assert SinceOk(w, d) && CallLogged(w, d) && CallActs(w, d);
        PostedSinceGrows(w.log, e, d);
        PublishSinceGrows(w.acts, act, w.calls[d].slot);
      }
    }
  }

  // ------------------------------------------------------------------------- one step

  lemma CountStep(w: World, first: nat, c: nat)
    requires c < |w.calls| && SlotOk(w, first, c) && w.nextPid == first + |CountedCalls(w)|
    ensures Exec(w, c).nextPid == first + |CountedCalls(Exec(w, c))|
  {
    var r := Exec(w, c);
    CountedBefore(w, c);
    if w.calls[c].place.ToCount? {
      assert CountedCalls(r) == CountedCalls(w) + {c};
    } else {
      assert CountedCalls(r) == CountedCalls(w);
    }
  }

  /** Only line 22 counts a call and moves next_pid. */
  lemma CountedBefore(w: World, c: nat)
    requires c < |w.calls|
    ensures var r, count := Exec(w, c), w.calls[c].place.ToCount?;
            && (!count ==> r.nextPid == w.nextPid) && |r.calls| == |w.calls|
            && forall d :: 0 <= d < |w.calls| ==>
                 (HasCounted(r.calls[d].place) <==> HasCounted(w.calls[d].place) || (count && d == c))
  {}

  /** A call that has not counted leaves a pid for itself. */
  lemma PidLeft(w: World, c: nat)
    requires c < |w.calls| && !HasCounted(w.calls[c].place)
    ensures |CountedCalls(w)| < |w.calls|
  {
    AtMost(CountedCalls(w) + {c}, |w.calls|);
  }

  lemma {:induction false} AtMost(s: set<nat>, n: nat)
    requires forall x :: x in s ==> x < n
    ensures |s| <= n
    decreases n
  {
    if n > 0 { AtMost(s - {n - 1}, n - 1); } else { assert s == {}; }
  }

  lemma LatestGrows(log: seq<Event>, e: Event)
    ensures Latest(log + [e]) == if e.kind == Posted then Some(e.c) else Latest(log)
  {
    assert (log + [e])[..|log|] == log;
  }

  lemma HeadStep(w: World, c: nat)
    requires c < |w.calls| && HeadOk(w) && (w.calls[c].place.ToSlot? || w.calls[c].slot != w.head)
    ensures HeadOk(Exec(w, c))
  {
    var r := Exec(w, c);
    ExecShape(w, c);
    if r.log != w.log {
      var kind :| r.log == w.log + [Event(kind, c)];
      LatestGrows(w.log, Event(kind, c));
    }
  }

  /** Descriptors of their own: apart from each other, from the head and from the ring. */
  lemma Slots(w: World, ring: seq<nat>, first: nat, c: nat)
    requires SlotsApart(w, first) && c < |w.calls| && !w.calls[c].place.ToSlot?
    requires forall i :: 0 <= i < |ring| ==> ring[i] < Address(first)
    ensures OwnSlot(w, c) && w.calls[c].slot !in ring
  {
    assert SlotOk(w, first, c);
    forall d | 0 <= d < |w.calls| && d != c && !w.calls[d].place.ToSlot? ensures w.calls[d].slot != w.calls[c].slot {
      assert !SameSlot(w, d, c);
    }
  }

  lemma NewSlot(w: World, base: map<nat, Desc>, ring: seq<nat>, first: nat, c: nat)
    requires Logged(w) && SlotsApart(w, first) && RingKnown(w, base, ring, first)
    requires c < |w.calls| && w.calls[c].place.ToSlot?
    ensures Address(w.nextPid) in base && Address(w.nextPid) !in Linked(w.acts)
  {
    PidLeft(w, c);
    var t := Address(w.nextPid);
    assert CallerOk(w, t);
    forall d: nat | d < |w.calls| && HasLoaded(w.calls[d].place) ensures w.calls[d].slot != t {
      assert SlotOk(w, first, d);
    }
  }

  lemma QuietRing(w: World, base: map<nat, Desc>, ring: seq<nat>, first: nat, c: nat)
    requires Logged(w) && SlotsApart(w, first) && RingKnown(w, base, ring, first)
    requires c < |w.calls| && w.calls[c].place != Done
    requires !w.calls[c].place.ToLoad? && !w.calls[c].place.ToLink? && !w.calls[c].place.ToPublish?
    ensures RingKnown(Exec(w, c), base, ring, first)
  {
    var r, mem := Exec(w, c), Memory(base, w.head, w.acts);
    if w.calls[c].place.ToSlot? {
      NewSlot(w, base, ring, first, c);
    } else {
      Slots(w, ring, first, c);
      assert LoadedNext(w, mem, c) && SameNext(w, mem, w.calls[c].slot) && CallActs(w, c);
    }
    QuietStep(w, c);
    QuietAgrees(w, r, c, mem);
    QuietActs(w, r, c, ring);
    QuietRaces(w, r, c);
    assert SlotOk(w, first, c);
    CountStep(w, first, c);
    HeadStep(w, c);
  }

  lemma NotWritingHead(w: World, ring: seq<nat>, first: nat)
    requires SlotsApart(w, first) && ring != [] && w.head == ring[0]
    requires forall i :: 0 <= i < |ring| ==> ring[i] < Address(first)
    ensures !Writing(w, w.head)
    ensures forall d :: 0 <= d < |w.calls| && !w.calls[d].place.ToSlot? ==> w.calls[d].slot != w.head
  {
    forall d | 0 <= d < |w.calls| && !w.calls[d].place.ToSlot? ensures w.calls[d].slot != w.head {
      Slots(w, ring, first, d);
    }
  }

  lemma MemoryGrows(base: map<nat, Desc>, head: nat, acts: seq<Act>, act: Act)
    requires head in base && Described(base, acts) && act.task in base
    ensures Described(base, acts + [act])
    ensures Memory(base, head, acts + [act]) == Store(Memory(base, head, acts), head, act)
  {
    assert (acts + [act])[..|acts|] == acts;
  }

  lemma LoadRing(w: World, base: map<nat, Desc>, ring: seq<nat>, first: nat, c: nat)
    requires Logged(w) && SlotsApart(w, first) && RingKnown(w, base, ring, first)
    requires c < |w.calls| && w.calls[c].place.ToLoad?
    ensures RingKnown(Exec(w, c), base, ring, first)
  {
    var k, mem := w.calls[c], Memory(base, w.head, w.acts);
    LinkReady(w, base, ring, first, c);
    LoadAgrees(w, c, mem);
    MemoryGrows(base, w.head, w.acts, Link(k.slot));
    ActGrows(w, c, ring, Link(k.slot));
    LoadRaces(w, c);
  }

  lemma LinkRing(w: World, base: map<nat, Desc>, ring: seq<nat>, first: nat, c: nat)
    requires Logged(w) && SlotsApart(w, first) && RingKnown(w, base, ring, first)
    requires c < |w.calls| && w.calls[c].place.ToLink?
    ensures RingKnown(Exec(w, c), base, ring, first)
  {
    LinkReady(w, base, ring, first, c);
    LinkAgrees(w, c, Memory(base, w.head, w.acts));
    LinkActs(w, c, ring);
    LinkRaces(w, c);
  }

  lemma PublishRing(w: World, base: map<nat, Desc>, ring: seq<nat>, first: nat, c: nat)
    requires Logged(w) && SlotsApart(w, first) && RingKnown(w, base, ring, first)
    requires c < |w.calls| && w.calls[c].place.ToPublish?
    ensures RingKnown(Exec(w, c), base, ring, first)
  {
    var k, mem := w.calls[c], Memory(base, w.head, w.acts);
    LinkReady(w, base, ring, first, c);
    PublishAgrees(w, c, mem);
    MemoryGrows(base, w.head, w.acts, Publish(k.slot));
    ActGrows(w, c, ring, Publish(k.slot));
    PublishRaces(w, c);
  }

  /** What the three link steps have in common. */
  lemma LinkReady(w: World, base: map<nat, Desc>, ring: seq<nat>, first: nat, c: nat)
    requires Logged(w) && SlotsApart(w, first) && RingKnown(w, base, ring, first)
    requires c < |w.calls| && !w.calls[c].place.ToSlot?
    ensures OwnSlot(w, c) && w.calls[c].slot !in ring && !Writing(w, w.head) && CallActs(w, c)
    ensures forall d :: 0 <= d < |w.calls| && !w.calls[d].place.ToSlot? ==> w.calls[d].slot != w.head
    ensures w.calls[c].slot in base && HeadOk(Exec(w, c))
    ensures Exec(w, c).nextPid == first + |CountedCalls(Exec(w, c))|
  {
    Slots(w, ring, first, c);
    NotWritingHead(w, ring, first);
    assert SlotOk(w, first, c) && LoadedNext(w, Memory(base, w.head, w.acts), c) && CallActs(w, c);
    CountStep(w, first, c);
    HeadStep(w, c);
  }

  lemma LinkActs(w: World, c: nat, ring: seq<nat>)
    requires ActsOk(w, ring) && c < |w.calls| && w.calls[c].place.ToLink?
    ensures ActsOk(Exec(w, c), ring)
  {
    var r := Exec(w, c);
    forall d: nat ensures CallActs(r, d) { assert CallActs(w, d); }
    forall t: nat ensures CallerOk(r, t) {
      assert CallerOk(w, t);
      if Caller(w, t) {
        var d: nat :| d < |w.calls| && HasLoaded(w.calls[d].place) && w.calls[d].slot == t;
        assert HasLoaded(r.calls[d].place) && r.calls[d].slot == t;
      }
    }
  }

  lemma LinkRaces(w: World, c: nat)
    requires RacesAgree(w) && c < |w.calls| && w.calls[c].place.ToLink?
    ensures RacesAgree(Exec(w, c))
  {
    forall d: nat ensures SinceOk(Exec(w, c), d) { assert SinceOk(w, d); }
  }

  lemma ExecRing(w: World, base: map<nat, Desc>, ring: seq<nat>, first: nat, c: nat)
    requires Logged(w) && SlotsApart(w, first) && RingKnown(w, base, ring, first) && c < |w.calls|
    ensures RingKnown(Exec(w, c), base, ring, first)
  {
    var p := w.calls[c].place;
    if p.ToLoad? {
      LoadRing(w, base, ring, first, c);
    } else if p.ToLink? {
      LinkRing(w, base, ring, first, c);
    } else if p.ToPublish? {
      PublishRing(w, base, ring, first, c);
    } else if p != Done {
      QuietRing(w, base, ring, first, c);
    }
  }
}
