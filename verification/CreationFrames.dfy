/**
 The stacks of overlapping task_create calls (pmm.c of REPLAY-OS). The allocator tests a frame's bit
 and sets it in two statements, so two calls can be given one frame. When all have returned, each
 has its own exactly if that race did not happen and there were frames enough.
 */
module CreationFrames {
  import opened Options
  import opened CreationRuns

  /** The frame a call has or is about to take. */
  function Target(k: Call): Option<nat> {
    if k.place.ToMark? then Some(k.place.frame) else k.frame
  }

  ghost predicate FrameOk(w: World, start: set<nat>, c: nat) {
    c < |w.calls| ==>
      var k := w.calls[c];
      && (k.place.ToTest? ==> forall x :: x in w.free ==> k.place.frame <= x)
      && (k.place.ToMark? ==> k.place.frame in w.free && forall x :: x in w.free ==> k.place.frame <= x)
      && (k.frame.Some? ==> k.frame.value in start && k.frame.value !in w.free)
  }

  ghost predicate SameFrame(w: World, c: nat, d: nat) {
    && c < |w.calls| && d < |w.calls| && c != d
    && Target(w.calls[c]).Some? && Target(w.calls[c]) == Target(w.calls[d])
  }

  ghost predicate Taken(w: World, x: nat) {
    exists c :: 0 <= c < |w.calls| && w.calls[c].frame == Some(x)
  }

  ghost predicate FramesApart(w: World, start: set<nat>) {
    && w.free <= start
    && (forall x :: x in start ==> x < w.total && (x in w.free || Taken(w, x)))
    && (forall c: nat {:trigger FrameOk(w, start, c)} :: FrameOk(w, start, c))
    && (forall c: nat, d: nat {:trigger SameFrame(w, c, d)} :: !SameFrame(w, c, d))
  }

  ghost predicate FrameClash(w: World) {
    exists c: nat, d: nat :: SameFrame(w, c, d)
  }

  ghost predicate FramesKnown(w: World, start: set<nat>) {
    if FrameRace(w.log) then FrameClash(w) else FramesApart(w, start)
  }

  lemma FrameOpen(w: World, c: nat)
    requires Logged(w)
    ensures Open(w.log, Tested, Marked, c) <==> c < |w.calls| && w.calls[c].place.ToMark?
  {
    assert CallLogged(w, c);
  }

  lemma KeepFrames(w: World, start: set<nat>, c: nat)
    requires Logged(w) && FramesKnown(w, start) && c < |w.calls|
    requires !w.calls[c].place.ToMark? && !w.calls[c].place.ToTest?
    ensures FramesKnown(Exec(w, c), start)
  {
    var r := Exec(w, c);
    StayFrames(w, c);
    if FrameRace(w.log) {
      var d: nat, e: nat :| SameFrame(w, d, e);
      assert SameFrame(r, d, e);
    } else {
      SameTargets(w, r, start);
    }
  }

  lemma StayFrames(w: World, c: nat)
    requires c < |w.calls| && !w.calls[c].place.ToMark? && !w.calls[c].place.ToTest?
    ensures var r := Exec(w, c); var p := r.calls[c].place;
            && r.free == w.free && r.total == w.total && r.calls[c].frame == w.calls[c].frame
            && !p.ToMark? && (p.ToTest? ==> p.frame == 0)
            && (FrameRace(r.log) <==> FrameRace(w.log))
  {
    var r := Exec(w, c);
    if r.log != w.log { RaceGrows(w.log, r.log[|w.log|], Tested, Marked); }
  }

  lemma SameTargets(w: World, r: World, start: set<nat>)
    requires FramesApart(w, start) && r.free == w.free && r.total == w.total && |r.calls| == |w.calls|
    requires forall c :: 0 <= c < |w.calls| ==> r.calls[c].frame == w.calls[c].frame
    requires forall c :: 0 <= c < |w.calls| && (r.calls[c].place.ToMark? || w.calls[c].place.ToMark?) ==>
               r.calls[c].place == w.calls[c].place
    requires forall c :: 0 <= c < |w.calls| && r.calls[c].place.ToTest? && r.calls[c].place != w.calls[c].place ==>
               forall x :: x in w.free ==> r.calls[c].place.frame <= x
    ensures FramesApart(r, start)
  {
    forall x | x in start ensures x < r.total && (x in r.free || Taken(r, x)) {
      if Taken(w, x) {
        var c :| 0 <= c < |w.calls| && w.calls[c].frame == Some(x);
        assert r.calls[c].frame == Some(x);
      }
    }
    forall d: nat ensures FrameOk(r, start, d) { assert FrameOk(w, start, d); }
    forall d: nat, e: nat ensures !SameFrame(r, d, e) { assert !SameFrame(w, d, e); }
  }

  /** A frame's bit is found clear: nobody else holds it unless another is about to take the very same one. */
  lemma TestFrames(w: World, start: set<nat>, c: nat)
    requires Logged(w) && FramesKnown(w, start) && c < |w.calls| && w.calls[c].place.ToTest?
    ensures FramesKnown(Exec(w, c), start)
  {
    var r := Exec(w, c);
    var i := w.calls[c].place.frame;
    if r.log != w.log { RaceGrows(w.log, Event(Tested, c), Tested, Marked); }
    assert CallLogged(w, c);
    if FrameRace(w.log) {
      var d: nat, e: nat :| SameFrame(w, d, e);
      assert SameFrame(r, d, e);
    } else if i >= w.total || i !in w.free {
      assert FrameOk(w, start, c);
      SameTargets(w, r, start);
    } else {
      FoundFree(w, start, c);
    }
  }

  lemma FoundFree(w: World, start: set<nat>, c: nat)
    requires Logged(w) && FramesApart(w, start) && !FrameRace(w.log) && c < |w.calls| && w.calls[c].place.ToTest?
    requires w.calls[c].place.frame < w.total && w.calls[c].place.frame in w.free
    ensures FramesKnown(Exec(w, c), start)
  {
    var r := Exec(w, c);
    RaceGrows(w.log, Event(Tested, c), Tested, Marked);
    assert FrameOk(w, start, c) && CallLogged(w, c);
    if d: nat :| Open(w.log, Tested, Marked, d) {
      FrameOpen(w, d);
      assert FrameOk(w, start, d);
      assert SameFrame(r, d, c);
    } else {
      forall x | x in start ensures x < r.total && (x in r.free || Taken(r, x)) {
        if Taken(w, x) {
          var d :| 0 <= d < |w.calls| && w.calls[d].frame == Some(x);
          assert r.calls[d].frame == Some(x);
        }
      }
      forall d: nat ensures FrameOk(r, start, d) { assert FrameOk(w, start, d); }
      forall d: nat, e: nat ensures !SameFrame(r, d, e) {
        FrameOpen(w, d);
        FrameOpen(w, e);
        assert FrameOk(w, start, d) && FrameOk(w, start, e) && !SameFrame(w, d, e);
      }
    }
  }

  lemma MarkFrames(w: World, start: set<nat>, c: nat)
    requires Logged(w) && FramesKnown(w, start) && c < |w.calls| && w.calls[c].place.ToMark?
    ensures FramesKnown(Exec(w, c), start)
  {
    var r := Exec(w, c);
    var i := w.calls[c].place.frame;
    RaceGrows(w.log, Event(Marked, c), Tested, Marked);
    if FrameRace(w.log) {
      var d: nat, e: nat :| SameFrame(w, d, e);
      assert SameFrame(r, d, e);
    } else {
      assert FrameOk(w, start, c);
      assert r.calls[c].frame == Some(i);
      forall x | x in start ensures x < r.total && (x in r.free || Taken(r, x)) {
        if Taken(w, x) && x != i {
          var d :| 0 <= d < |w.calls| && w.calls[d].frame == Some(x);
          assert CallLogged(w, d) && CallLogged(w, c);
          assert r.calls[d].frame == Some(x);
        }
      }
      forall d: nat ensures FrameOk(r, start, d) { assert FrameOk(w, start, d) && !SameFrame(w, c, d); }
      forall d: nat, e: nat ensures !SameFrame(r, d, e) { assert !SameFrame(w, d, e); }
    }
  }

  lemma ExecFrames(w: World, start: set<nat>, c: nat)
    requires Logged(w) && FramesKnown(w, start) && c < |w.calls|
    ensures FramesKnown(Exec(w, c), start)
  {
    if w.calls[c].place.ToTest? {
      TestFrames(w, start, c);
    } else if w.calls[c].place.ToMark? {
      MarkFrames(w, start, c);
    } else {
      KeepFrames(w, start, c);
    }
  }

  // ---------------------------------------------------------------- over whole runs

  lemma BegunFrames(w: World, ring: seq<nat>)
    requires Begun(w, ring)
    ensures Logged(w) && FramesKnown(w, w.free)
  {
    BegunKnown(w, ring);
    forall c: nat ensures FrameOk(w, w.free, c) {}
  }

  lemma {:induction false} RunFrames(w: World, schedule: seq<nat>, start: set<nat>)
    requires Logged(w) && FramesKnown(w, start)
    requires forall i :: 0 <= i < |schedule| ==> schedule[i] < |w.calls|
    ensures var r := Run(w, schedule); Logged(r) && FramesKnown(r, start)
    decreases |schedule|
  {
    if schedule != [] {
      ExecLogged(w, schedule[0]);
      ExecFrames(w, start, schedule[0]);
      RunFrames(Exec(w, schedule[0]), schedule[1..], start);
    }
  }

  /** No call has come back from the allocator with null. */
  ghost predicate Fed(w: World) {
    forall c :: 0 <= c < |w.calls| && HasAsked(w.calls[c].place) ==> w.calls[c].frame.Some?
  }

  predicate HasAsked(p: Place) {
    p.ToStack? || p.ToLoad? || HasLoaded(p)
  }

  /** As many different values as calls that hold one, at most. */
  lemma {:induction false} Pigeons(start: set<nat>, calls: seq<Call>)
    requires forall x :: x in start ==> exists c :: 0 <= c < |calls| && calls[c].frame == Some(x)
    ensures |start| <= |calls|
    decreases |calls|
  {
    if start != {} {
      var n := |calls| - 1;
      var less := if calls[n].frame.Some? then start - {calls[n].frame.value} else start;
      forall x | x in less ensures exists c :: 0 <= c < n && calls[..n][c].frame == Some(x) {
        var c :| 0 <= c < |calls| && calls[c].frame == Some(x);
        assert calls[..n][c].frame == Some(x);
      }
      Pigeons(less, calls[..n]);
      if calls[n].frame.Some? && calls[n].frame.value in start {
        assert start == less + {calls[n].frame.value};
      }
    }
  }

  ghost predicate OwnFrames(calls: seq<Call>) {
    && (forall c :: 0 <= c < |calls| ==> calls[c].frame.Some?)
    && (forall c, d :: 0 <= c < d < |calls| ==> calls[c].frame != calls[d].frame)
  }

  lemma {:induction false} Holes(start: set<nat>, calls: seq<Call>)
    requires OwnFrames(calls) && forall c :: 0 <= c < |calls| ==> calls[c].frame.value in start
    ensures |calls| <= |start|
    decreases |calls|
  {
    if calls != [] {
      var n := |calls| - 1;
      Holes(start - {calls[n].frame.value}, calls[..n]);
    }
  }

  /** When all frames are gone although some call has none, there were too few. */
  lemma Exhausted(w: World, start: set<nat>, c: nat)
    requires FramesApart(w, start) && w.free == {} && c < |w.calls| && w.calls[c].frame == None
    ensures |start| < |w.calls|
  {
    var others := w.calls[..c] + w.calls[c + 1..];
    forall x | x in start ensures exists d :: 0 <= d < |others| && others[d].frame == Some(x) {
      assert Taken(w, x);
      var d :| 0 <= d < |w.calls| && w.calls[d].frame == Some(x);
      assert others[if d < c then d else d - 1].frame == Some(x);
    }
    Pigeons(start, others);
  }

  lemma ExecFed(w: World, start: set<nat>, c: nat)
    requires Logged(w) && FramesApart(w, start) && Fed(w) && |w.calls| <= |start| && c < |w.calls|
    ensures Fed(Exec(w, c))
  {
    var k := w.calls[c];
    assert CallLogged(w, c) && FrameOk(w, start, c);
    if k.place.ToTest? && k.place.frame >= w.total {
      assert w.free == {};
      Exhausted(w, start, c);
    }
  }

  lemma {:induction false} RunFed(w: World, schedule: seq<nat>, start: set<nat>)
    requires Logged(w) && FramesKnown(w, start) && |w.calls| <= |start|
    requires FrameRace(w.log) || Fed(w)
    requires forall i :: 0 <= i < |schedule| ==> schedule[i] < |w.calls|
    ensures var r := Run(w, schedule); FrameRace(r.log) || Fed(r)
    decreases |schedule|
  {
    if schedule != [] {
      ExecLogged(w, schedule[0]);
      ExecFrames(w, start, schedule[0]);
      RaceStays(w, schedule[0]);
      if !FrameRace(w.log) { ExecFed(w, start, schedule[0]); }
      RunFed(Exec(w, schedule[0]), schedule[1..], start);
    }
  }

  /**
   When all calls have returned, each has a frame of its own if and only if no call found a frame
   free between another's test and its store, and there were enough free frames to begin with.
   */
  lemma OwnFramesExactlyWhen(w: World, ring: seq<nat>, schedule: seq<nat>)
    requires Begun(w, ring) && forall i :: 0 <= i < |schedule| ==> schedule[i] < |w.calls|
    requires Finished(Run(w, schedule))
    ensures var r := Run(w, schedule);
            OwnFrames(r.calls) <==> !FrameRace(r.log) && |w.calls| <= |w.free|
  {
    var r := Run(w, schedule);
    BegunFrames(w, ring);
    RunFrames(w, schedule, w.free);
    if OwnFrames(r.calls) {
      OwnNoClash(r);
      forall c | 0 <= c < |r.calls| ensures r.calls[c].frame.value in w.free { assert FrameOk(r, w.free, c); }
      Holes(w.free, r.calls);
    }
    if !FrameRace(r.log) && |w.calls| <= |w.free| {
      RunFed(w, schedule, w.free);
      forall c, d | 0 <= c < d < |r.calls| ensures r.calls[c].frame != r.calls[d].frame {
        assert !SameFrame(r, c, d);
      }
    }
  }

  lemma OwnNoClash(w: World)
    requires Finished(w) && OwnFrames(w.calls)
    ensures !FrameClash(w)
  {
    forall c: nat, d: nat ensures !SameFrame(w, c, d) {}
  }

  /** Two calls that look at the same clear bit before either sets it get one frame between them. */
  lemma SameFrameTwice(w: World, c: nat, d: nat, x: nat)
    requires c < |w.calls| && d < |w.calls| && c != d && x < w.total && x in w.free
    requires w.calls[c].place == ToTest(x) && w.calls[d].place == ToTest(x) && Logged(w)
    ensures var r := Exec(Exec(Exec(Exec(w, c), d), c), d);
            r.calls[c].frame == Some(x) && r.calls[d].frame == Some(x) && FrameRace(r.log)
  {
    var w1 := Exec(w, c);
    var w2 := Exec(w1, d);
    assert w2.log == w.log + [Event(Tested, c)] + [Event(Tested, d)];
    RaceStays(w2, c);
    RaceStays(Exec(w2, c), d);
    assert CallLogged(w, c);
    assert Open(w1.log, Tested, Marked, c);
    RaceGrows(w1.log, Event(Tested, d), Tested, Marked);
  }
}
