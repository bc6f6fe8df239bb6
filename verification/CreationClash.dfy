/**
 A race of task_create calls for one descriptor (task.c of REPLAY-OS), from any ring: one call runs
 from start to end between another's lines 21 and 22, and the ring becomes a loop that the list
 head leads into and nothing leads out of.
 */
module CreationClash {
  import opened Options
  import opened RunRing
  import opened Creations
  import opened CreationRuns

  lemma {:induction false} RunTwice(w: World, s: seq<nat>, t: seq<nat>)
    requires forall i :: 0 <= i < |s| ==> s[i] < |w.calls|
    requires forall i :: 0 <= i < |t| ==> t[i] < |w.calls|
    ensures Run(w, s + t) == Run(Run(w, s), t)
    decreases |s|
  {
    if s == [] {
      assert s + t == t;
    } else {
      assert (s + t)[1..] == s[1..] + t;
      RunTwice(Exec(w, s[0]), s[1..], t);
    }
  }

  /** Only call c has moved, with its slot and everybody's links as they were. */
  ghost predicate Moved(w: World, r: World, c: nat) {
    && c < |w.calls| && |r.calls| == |w.calls| && r.head == w.head && r.calls[c].slot == w.calls[c].slot
    && (forall d :: 0 <= d < |w.calls| && d != c ==> r.calls[d] == w.calls[d])
    && (SlotRace(w.log) ==> SlotRace(r.log))
  }

  /** The allocator returns, with a frame or without. */
  lemma Allocate(w: World, c: nat) returns (s: seq<nat>)
    requires c < |w.calls| && w.calls[c].place.ToTest?
    ensures forall i :: 0 <= i < |s| ==> s[i] == c
    ensures Moved(w, Run(w, s), c) && Run(w, s).calls[c].place == ToStack && Run(w, s).desc == w.desc
    decreases w.total - w.calls[c].place.frame
  {
    var i := w.calls[c].place.frame;
    var w1 := Exec(w, c);
    RaceStays(w, c);
    if i >= w.total {
      s := [c];
      assert Run(w, s) == Run(w1, []);
    } else if i in w.free {
      s := [c, c];
      RaceStays(w1, c);
      assert s[1..] == [c] && Run(w1, [c]) == Run(Exec(w1, c), []);
    } else {
      var rest := Allocate(w1, c);
      s := [c] + rest;
      assert s[1..] == rest;
    }
  }

  lemma First(w: World, c: nat, s: seq<nat>)
    requires c < |w.calls| && forall i :: 0 <= i < |s| ==> s[i] < |w.calls|
    ensures Run(w, [c] + s) == Run(Exec(w, c), s)
  {
    assert ([c] + s)[1..] == s;
  }

  lemma Three(w: World, c: nat)
    requires c < |w.calls|
    ensures Run(w, [c, c, c]) == Exec(Exec(Exec(w, c), c), c)
  {
    var w1 := Exec(w, c);
    First(w, c, [c, c]);
    First(w1, c, [c]);
    First(Exec(w1, c), c, []);
    assert [c] + [c, c] == [c, c, c] && [c] + [c] == [c, c];
  }

  lemma Four(w: World, c: nat)
    requires c < |w.calls|
    ensures Run(w, [c, c, c, c]) == Exec(Exec(Exec(Exec(w, c), c), c), c)
  {
    First(w, c, [c, c, c]);
    Three(Exec(w, c), c);
    assert [c] + [c, c, c] == [c, c, c, c];
  }

  /** From line 40 on: the descriptor takes over the head's link, and the head leads to it. */
  lemma Linking(w: World, c: nat)
    requires c < |w.calls| && w.calls[c].place == ToStack && w.calls[c].slot != w.head && w.head in w.desc
    ensures var r, t := Run(w, [c, c, c, c]), w.calls[c].slot;
            && Moved(w, r, c) && r.calls[c].place == Done && r.head in r.desc && t in r.desc
            && r.desc[r.head].next == t && r.desc[t].next == w.desc[w.head].next
  {
    Four(w, c);
    var w1 := Exec(w, c);
    var w2 := Exec(w1, c);
    var w3 := Exec(w2, c);
    RaceStays(w, c);
    RaceStays(w1, c);
    RaceStays(w2, c);
    RaceStays(w3, c);
  }

  /** Lines 22 and 23. */
  lemma Numbering(w: World, c: nat)
    requires c < |w.calls| && w.calls[c].place == ToRead && w.calls[c].slot != w.head && w.head in w.desc
    ensures var r := Run(w, [c, c, c]);
            && Moved(w, r, c) && r.calls[c].place == ToTest(0) && r.head in r.desc
            && r.desc[r.head].next == w.desc[w.head].next
  {
    var w1 := Exec(w, c);
    var w2 := Exec(w1, c);
    Three(w, c);
    RaceStays(w, c);
    RaceStays(w1, c);
    RaceStays(w2, c);
  }

  /** A call runs alone from line 22 to its end. */
  lemma Rest(w: World, c: nat) returns (s: seq<nat>)
    requires c < |w.calls| && w.calls[c].place == ToRead && w.calls[c].slot != w.head && w.head in w.desc
    ensures forall i :: 0 <= i < |s| ==> s[i] == c
    ensures var r, t := Run(w, s), w.calls[c].slot;
            && Moved(w, r, c) && r.calls[c].place == Done && r.head in r.desc && t in r.desc
            && r.desc[r.head].next == t && r.desc[t].next == w.desc[w.head].next
  {
    Numbering(w, c);
    var w1 := Run(w, [c, c, c]);
    var search := Allocate(w1, c);
    var w2 := Run(w1, search);
    Linking(w2, c);
    RunTwice(w, [c, c, c], search);
    RunTwice(w, [c, c, c] + search, [c, c, c, c]);
    s := [c, c, c] + search + [c, c, c, c];
  }

  lemma BothSlots(w: World, ring: seq<nat>)
    requires Begun(w, ring) && |w.calls| == 2
    ensures var r := Run(w, [0, 1]);
            && SlotRace(r.log) && r.head == w.head && r.desc == w.desc
            && (forall c :: 0 <= c < 2 ==> r.calls[c].place == ToRead && r.calls[c].slot == Address(w.nextPid))
  {
    var w1 := Exec(w, 0);
    assert [0, 1][1..] == [1] && Run(w1, [1]) == Run(Exec(w1, 1), []);
    assert Open(w1.log, GotSlot, Counted, 0);
    RaceGrows(w1.log, Event(GotSlot, 1), GotSlot, Counted);
  }

  lemma NoRing(desc: map<nat, Desc>, head: nat, t: nat, r: seq<nat>)
    requires head in desc && t in desc && t != head && desc[head].next == t && desc[t].next == t
    ensures !(IsRing(desc, r) && r[0] == head)
  {
    if IsRing(desc, r) && r[0] == head {
      LinkAt(desc, r, 0);
      LinkAt(desc, r, 1);
    }
  }

  lemma LinkAt(desc: map<nat, Desc>, r: seq<nat>, i: nat)
    requires IsRing(desc, r)
    ensures i < |r| ==> r[i] in desc && desc[r[i]].next == r[Succ(i, |r|)]
  {
    assert Links(desc, r, i);
  }

  /**
   In any kernel, one call that runs from start to end between another's lines 21 and 22 ends in
   memory that is no ring: the head leads to the descriptor both share, which leads to itself.
   */
  lemma SharedDescriptorLoops(w: World, ring: seq<nat>) returns (schedule: seq<nat>)
    requires Begun(w, ring) && |w.calls| == 2
    ensures forall i :: 0 <= i < |schedule| ==> schedule[i] < 2
    ensures var r, t := Run(w, schedule), Address(w.nextPid);
            && Finished(r) && SlotRace(r.log) && r.calls[0].slot == r.calls[1].slot == t
            && r.head in r.desc && t in r.desc && r.desc[r.head].next == t && r.desc[t].next == t
            && forall all :: !(IsRing(r.desc, all) && all[0] == r.head)
  {
    assert Links(w.desc, ring, 0);
    BothSlots(w, ring);
    var w1 := Run(w, [0, 1]);
    var second := Rest(w1, 1);
    var w2 := Run(w1, second);
    var first := Rest(w2, 0);
    RunTwice(w, [0, 1], second);
    RunTwice(w, [0, 1] + second, first);
    schedule := [0, 1] + second + first;
    var r := Run(w, schedule);
    forall all ensures !(IsRing(r.desc, all) && all[0] == r.head) {
      NoRing(r.desc, r.head, Address(w.nextPid), all);
    }
  }
}
