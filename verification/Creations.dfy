/**
 The last two stores of task_create, under way for several entries at once (task.c of REPLAY-OS):
 an entry's own link and then the head's, in any interleaving, each entry with a descriptor of its
 own. Memory stays one ring; which entries it holds, and when none is lost, is worked out exactly.
 CreationRuns and CreationRing use this for whole calls, which may also race for the descriptor.
 */
module Creations {
  import opened RunRing

  /** The last two stores of one creation. */
  datatype Act =
    | Link(task: nat)        // task->next = task_list->next
    | Publish(task: nat)     // task_list->next = task

  function Store(desc: map<nat, Desc>, head: nat, act: Act): (after: map<nat, Desc>)
    requires head in desc && act.task in desc
    ensures after.Keys == desc.Keys
  {
    match act
    case Link(t) => desc[t := desc[t].(next := desc[head].next)]
    case Publish(t) => desc[head := desc[head].(next := t)]
  }

  /** The descriptors after all the stores. */
  function Memory(desc: map<nat, Desc>, head: nat, acts: seq<Act>): (after: map<nat, Desc>)
    requires head in desc && forall i :: 0 <= i < |acts| ==> acts[i].task in desc
    ensures after.Keys == desc.Keys
  {
    if acts == [] then desc else Store(Memory(desc, head, acts[..|acts| - 1]), head, acts[|acts| - 1])
  }

  ghost function Linked(acts: seq<Act>): set<nat> {
    set i | 0 <= i < |acts| && acts[i].Link? :: acts[i].task
  }

  ghost function Published(acts: seq<Act>): set<nat> {
    set i | 0 <= i < |acts| && acts[i].Publish? :: acts[i].task
  }

  /** Every creation links its own new entry, once, and then publishes it, once. */
  ghost predicate Proper(ring: seq<nat>, acts: seq<Act>) {
    acts == [] ||
    var before, act := acts[..|acts| - 1], acts[|acts| - 1];
    && Proper(ring, before)
    && (act.Link? ==> act.task !in ring && act.task !in Linked(before))
    && (act.Publish? ==> act.task in Linked(before) && act.task !in Published(before))
  }

  /** The entries behind the head, and for each creation those it saw there when it linked its entry. */
  datatype View = View(tail: seq<nat>, seen: map<nat, seq<nat>>)

  function After(ring: seq<nat>, acts: seq<Act>): View
    requires ring != []
  {
    if acts == [] then View(ring[1..], map[])
    else
      var v := After(ring, acts[..|acts| - 1]);
      match acts[|acts| - 1]
      case Link(t) => View(v.tail, v.seen[t := v.tail])
      case Publish(t) => View([t] + (if t in v.seen then v.seen[t] else []), v.seen)
  }

  lemma Shorter(acts: seq<Act>)
    requires acts != []
    ensures var before, act := acts[..|acts| - 1], acts[|acts| - 1];
            && acts == before + [act]
            && Linked(acts) == Linked(before) + (if act.Link? then {act.task} else {})
            && Published(acts) == Published(before) + (if act.Publish? then {act.task} else {})
  {
    var before, act := acts[..|acts| - 1], acts[|acts| - 1];
    assert acts == before + [act];
    forall t ensures t in Linked(acts) <==> t in Linked(before) || (act.Link? && t == act.task) {
      if t in Linked(before) {
        var i :| 0 <= i < |before| && before[i].Link? && before[i].task == t;
        assert acts[i] == before[i];
      }
      if act.Link? && t == act.task { assert acts[|acts| - 1].Link?; }
    }
    forall t ensures t in Published(acts) <==> t in Published(before) || (act.Publish? && t == act.task) {
      if t in Published(before) {
        var i :| 0 <= i < |before| && before[i].Publish? && before[i].task == t;
        assert acts[i] == before[i];
      }
      if act.Publish? && t == act.task { assert acts[|acts| - 1].Publish?; }
    }
  }

  // ---------------------------------------------------------- memory is always one ring

  function First(s: seq<nat>, head: nat): nat {
    if s == [] then head else s[0]
  }

  ghost predicate Joint(desc: map<nat, Desc>, head: nat, s: seq<nat>, i: nat) {
    i < |s| ==> s[i] in desc && desc[s[i]].next == if i + 1 < |s| then s[i + 1] else head
  }

  /** Following `next` from the first entry of s visits s and ends at the head; all of s is among `known`. */
  ghost predicate Chain(desc: map<nat, Desc>, head: nat, s: seq<nat>, known: set<nat>) {
    && (forall i: nat {:trigger Joint(desc, head, s, i)} :: Joint(desc, head, s, i))
    && (forall i, j :: 0 <= i < j < |s| ==> s[i] != s[j])
    && (forall i :: 0 <= i < |s| ==> s[i] in known)
  }

  ghost function Members(s: seq<nat>): set<nat> {
    set x | x in s
  }

  /** The entries that have been behind the head at some time. */
  ghost function Known(ring: seq<nat>, acts: seq<Act>): set<nat>
    requires ring != []
  {
    Members(ring[1..]) + Published(acts)
  }

  /** Creation t: its entry leads to the chain it saw. */
  ghost predicate LinkedOk(desc: map<nat, Desc>, head: nat, v: View, known: set<nat>, t: nat)
  {
    && t in v.seen && t in desc && t != head && Chain(desc, head, v.seen[t], known)
    && t !in v.seen[t] && desc[t].next == First(v.seen[t], head)
  }

  ghost predicate Good(desc: map<nat, Desc>, ring: seq<nat>, acts: seq<Act>)
    requires ring != []
  {
    var head, v, known := ring[0], After(ring, acts), Known(ring, acts);
    && head in desc && head !in known && v.seen.Keys == Linked(acts)
    && desc[head].next == First(v.tail, head) && Chain(desc, head, v.tail, known)
    && forall t :: t in Linked(acts) ==> LinkedOk(desc, head, v, known, t)
  }

  /** A chain survives stores to entries that are not on it. */
  lemma ChainKept(desc: map<nat, Desc>, after: map<nat, Desc>, head: nat, s: seq<nat>, known: set<nat>, more: set<nat>)
    requires Chain(desc, head, s, known) && known <= more && after.Keys == desc.Keys
    requires forall a :: a in known && a in desc ==> after[a] == desc[a]
    ensures Chain(after, head, s, more)
  {
    forall i: nat ensures Joint(after, head, s, i) { assert Joint(desc, head, s, i); }
  }

  lemma ChainExtended(desc: map<nat, Desc>, head: nat, s: seq<nat>, known: set<nat>, t: nat)
    requires Chain(desc, head, s, known) && t in known && t in desc && t !in s && desc[t].next == First(s, head)
    ensures Chain(desc, head, [t] + s, known)
  {
    forall i: nat ensures Joint(desc, head, [t] + s, i) { if i > 0 { assert Joint(desc, head, s, i - 1); } }
  }

  lemma LinkKeepsGood(desc: map<nat, Desc>, ring: seq<nat>, acts: seq<Act>, t: nat)
    requires ring != [] && Good(desc, ring, acts) && t in desc && t !in ring && t !in Linked(acts)
    requires Published(acts) <= Linked(acts)
    ensures Good(Store(desc, ring[0], Link(t)), ring, acts + [Link(t)])
  {
    var more, head := acts + [Link(t)], ring[0];
    var after, v, known := Store(desc, head, Link(t)), After(ring, acts), Known(ring, acts);
    Shorter(more);
    assert more[..|more| - 1] == acts;
    assert Known(ring, more) == known && t !in known;
    ChainKept(desc, after, head, v.tail, known, known);
    forall u | u in Linked(more) ensures LinkedOk(after, head, After(ring, more), known, u) {
      if u != t {
        assert LinkedOk(desc, head, v, known, u);
        ChainKept(desc, after, head, v.seen[u], known, known);
      }
    }
  }

  lemma PublishKeepsGood(desc: map<nat, Desc>, ring: seq<nat>, acts: seq<Act>, t: nat)
    requires ring != [] && Good(desc, ring, acts) && t in desc && t in Linked(acts) && t !in Published(acts)
    ensures Good(Store(desc, ring[0], Publish(t)), ring, acts + [Publish(t)])
  {
    var more, head := acts + [Publish(t)], ring[0];
    var after, v, known := Store(desc, head, Publish(t)), After(ring, acts), Known(ring, acts);
    Shorter(more);
    assert more[..|more| - 1] == acts;
    assert Known(ring, more) == known + {t};
    assert LinkedOk(desc, head, v, known, t);
    forall u | u in Linked(more) ensures LinkedOk(after, head, After(ring, more), known + {t}, u) {
      assert LinkedOk(desc, head, v, known, u);
      ChainKept(desc, after, head, v.seen[u], known, known + {t});
    }
    ChainExtended(after, head, v.seen[t], known + {t}, t);
  }

  ghost predicate Described(desc: map<nat, Desc>, acts: seq<Act>) {
    forall i :: 0 <= i < |acts| ==> acts[i].task in desc
  }

  lemma StartsGood(desc: map<nat, Desc>, ring: seq<nat>)
    requires IsRing(desc, ring)
    ensures Good(desc, ring, [])
  {
    var tail := ring[1..];
    assert Links(desc, ring, 0);
    forall i: nat ensures Joint(desc, ring[0], tail, i) { if i < |tail| { assert Links(desc, ring, i + 1); } }
  }

  lemma {:induction false} PublishedAreLinked(ring: seq<nat>, acts: seq<Act>)
    requires Proper(ring, acts)
    ensures Published(acts) <= Linked(acts)
  {
    if acts != [] {
      Shorter(acts);
      PublishedAreLinked(ring, acts[..|acts| - 1]);
    }
  }

  lemma {:induction false} AlwaysGood(desc: map<nat, Desc>, ring: seq<nat>, acts: seq<Act>)
    requires IsRing(desc, ring) && Proper(ring, acts) && Described(desc, acts)
    ensures ring[0] in desc && Good(Memory(desc, ring[0], acts), ring, acts)
  {
    if acts == [] {
      StartsGood(desc, ring);
    } else {
      var before, act := acts[..|acts| - 1], acts[|acts| - 1];
      assert acts == before + [act];
      AlwaysGood(desc, ring, before);
      PublishedAreLinked(ring, before);
      match act
      case Link(t) => LinkKeepsGood(Memory(desc, ring[0], before), ring, before, t);
      case Publish(t) => PublishKeepsGood(Memory(desc, ring[0], before), ring, before, t);
    }
  }

  lemma GoodIsRing(desc: map<nat, Desc>, ring: seq<nat>, acts: seq<Act>)
    requires ring != [] && Good(desc, ring, acts)
    ensures IsRing(desc, [ring[0]] + After(ring, acts).tail)
  {
    var all := [ring[0]] + After(ring, acts).tail;
    forall i: nat ensures Links(desc, all, i) {
      if 0 < i < |all| { assert Joint(desc, ring[0], all[1..], i - 1); }
    }
  }

  /** However any number of creations interleave, memory is one ring: the head and the entries of the view. */
  lemma AlwaysOneRing(desc: map<nat, Desc>, ring: seq<nat>, acts: seq<Act>)
    requires IsRing(desc, ring) && Proper(ring, acts) && Described(desc, acts)
    ensures ring[0] in desc && IsRing(Memory(desc, ring[0], acts), [ring[0]] + After(ring, acts).tail)
  {
    AlwaysGood(desc, ring, acts);
    GoodIsRing(Memory(desc, ring[0], acts), ring, acts);
  }

  // --------------------------------------------------------------- when nothing is lost

  ghost predicate PublishBetween(acts: seq<Act>, t: nat, i: nat, j: nat) {
    i < j < |acts| && acts[i] == Link(t) && acts[j].Publish?
  }

  /** Another creation has published since creation t linked its entry. */
  ghost predicate PublishSince(acts: seq<Act>, t: nat) {
    exists i: nat, j: nat :: PublishBetween(acts, t, i, j)
  }

  ghost predicate OverlapAt(acts: seq<Act>, k: nat) {
    k < |acts| && acts[k].Publish? && PublishSince(acts[..k], acts[k].task)
  }

  /** Some creation publishes although another has published since its link. */
  ghost predicate Overlaps(acts: seq<Act>) {
    exists k: nat :: OverlapAt(acts, k)
  }

  lemma PublishSinceGrows(acts: seq<Act>, act: Act, t: nat)
    ensures PublishSince(acts + [act], t) <==> PublishSince(acts, t) || (act.Publish? && t in Linked(acts))
  {
    var more := acts + [act];
    if PublishSince(acts, t) {
      var i: nat, j: nat :| PublishBetween(acts, t, i, j);
      assert PublishBetween(more, t, i, j);
    }
    if act.Publish? && t in Linked(acts) {
      var i :| 0 <= i < |acts| && acts[i].Link? && acts[i].task == t;
      assert PublishBetween(more, t, i, |acts|);
    }
    if PublishSince(more, t) {
      var i: nat, j: nat :| PublishBetween(more, t, i, j);
      assert j < |acts| ==> PublishBetween(acts, t, i, j);
      assert acts[i].Link? && acts[i].task == t;
    }
  }

  lemma OverlapsGrows(acts: seq<Act>, act: Act)
    ensures Overlaps(acts + [act]) <==> Overlaps(acts) || (act.Publish? && PublishSince(acts, act.task))
  {
    var more := acts + [act];
    assert more[..|acts|] == acts;
    forall k: nat | k < |acts| ensures OverlapAt(more, k) <==> OverlapAt(acts, k) {
      assert more[..k] == acts[..k];
    }
    if Overlaps(acts) {
      var k: nat :| OverlapAt(acts, k);
      assert OverlapAt(more, k);
    }
    if act.Publish? && PublishSince(acts, act.task) {
      assert OverlapAt(more, |acts|);
    }
    if Overlaps(more) {
      var k: nat :| OverlapAt(more, k);
      assert k < |acts| ==> OverlapAt(acts, k);
    }
  }

  /** Creation t has linked its entry and not yet published it. */
  ghost predicate Pending(acts: seq<Act>, t: nat) {
    t in Linked(acts) && t !in Published(acts)
  }

  /** What a pending creation saw, against the number of entries published so far. */
  ghost predicate SeenCounted(ring: seq<nat>, acts: seq<Act>, t: nat)
    requires ring != []
  {
    var v, n := After(ring, acts), |Known(ring, acts)|;
    && t in v.seen && |v.seen[t]| <= n
    && (PublishSince(acts, t) || Overlaps(acts) ==> |v.seen[t]| < n)
    && (!PublishSince(acts, t) ==> v.seen[t] == v.tail)
  }

  /** The list holds as many entries as were published exactly when nothing has overlapped. */
  ghost predicate Counted(ring: seq<nat>, acts: seq<Act>)
    requires ring != []
  {
    var v, n := After(ring, acts), |Known(ring, acts)|;
    && |v.tail| <= n && (|v.tail| == n <==> !Overlaps(acts))
    && forall t :: Pending(acts, t) ==> SeenCounted(ring, acts, t)
  }

  lemma SeenAfterLink(ring: seq<nat>, acts: seq<Act>, t: nat, u: nat)
    requires ring != [] && Counted(ring, acts) && t !in Linked(acts) && Pending(acts + [Link(t)], u)
    ensures SeenCounted(ring, acts + [Link(t)], u)
  {
    var more := acts + [Link(t)];
    Shorter(more);
    OverlapsGrows(acts, Link(t));
    PublishSinceGrows(acts, Link(t), u);
    assert more[..|more| - 1] == acts && Known(ring, more) == Known(ring, acts);
    if u == t {
      assert !PublishSince(acts, t);
    } else {
      assert SeenCounted(ring, acts, u);
    }
  }

  lemma LinkKeepsCounted(ring: seq<nat>, acts: seq<Act>, t: nat)
    requires ring != [] && Counted(ring, acts) && t !in Linked(acts)
    ensures Counted(ring, acts + [Link(t)])
  {
    var more := acts + [Link(t)];
    Shorter(more);
    OverlapsGrows(acts, Link(t));
    assert more[..|more| - 1] == acts && Known(ring, more) == Known(ring, acts);
    forall u | Pending(more, u) ensures SeenCounted(ring, more, u) { SeenAfterLink(ring, acts, t, u); }
  }

  lemma SeenAfterPublish(ring: seq<nat>, acts: seq<Act>, t: nat, u: nat)
    requires ring != [] && Counted(ring, acts) && t !in Known(ring, acts) && Pending(acts + [Publish(t)], u)
    ensures SeenCounted(ring, acts + [Publish(t)], u)
  {
    var more := acts + [Publish(t)];
    Shorter(more);
    PublishSinceGrows(acts, Publish(t), u);
    assert more[..|more| - 1] == acts && Known(ring, more) == Known(ring, acts) + {t};
    assert Pending(acts, u) && SeenCounted(ring, acts, u);
  }

  lemma PublishKeepsCounted(ring: seq<nat>, acts: seq<Act>, t: nat)
    requires ring != [] && Counted(ring, acts) && Pending(acts, t) && t !in ring
    ensures Counted(ring, acts + [Publish(t)])
  {
    var more := acts + [Publish(t)];
    Shorter(more);
    OverlapsGrows(acts, Publish(t));
    assert more[..|more| - 1] == acts && t !in Known(ring, acts);
    assert Known(ring, more) == Known(ring, acts) + {t};
    assert SeenCounted(ring, acts, t);
    forall u | Pending(more, u) ensures SeenCounted(ring, more, u) { SeenAfterPublish(ring, acts, t, u); }
  }

  lemma {:induction false} MembersCount(s: seq<nat>)
    requires forall i, j :: 0 <= i < j < |s| ==> s[i] != s[j]
    ensures |Members(s)| == |s|
  {
    if s != [] {
      MembersCount(s[1..]);
      assert Members(s) == Members(s[1..]) + {s[0]};
    }
  }

  lemma {:induction false} LinkedNotInRing(ring: seq<nat>, acts: seq<Act>, t: nat)
    requires Proper(ring, acts) && t in Linked(acts)
    ensures t !in ring
  {
    if acts != [] {
      Shorter(acts);
      if t in Linked(acts[..|acts| - 1]) { LinkedNotInRing(ring, acts[..|acts| - 1], t); }
    }
  }

  lemma {:induction false} AlwaysCounted(desc: map<nat, Desc>, ring: seq<nat>, acts: seq<Act>)
    requires IsRing(desc, ring) && Proper(ring, acts)
    ensures Counted(ring, acts)
  {
    if acts == [] {
      MembersCount(ring[1..]);
      assert Known(ring, acts) == Members(ring[1..]);
    } else {
      var before, act := acts[..|acts| - 1], acts[|acts| - 1];
      assert acts == before + [act];
      AlwaysCounted(desc, ring, before);
      match act
      case Link(t) => LinkKeepsCounted(ring, before, t);
      case Publish(t) =>
        LinkedNotInRing(ring, before, t);
        PublishKeepsCounted(ring, before, t);
    }
  }

  /** Distinct members of a set, as many as the set has: all of them. */
  lemma AllMembers(s: seq<nat>, known: set<nat>)
    requires forall i, j :: 0 <= i < j < |s| ==> s[i] != s[j]
    requires forall i :: 0 <= i < |s| ==> s[i] in known
    ensures |s| == |known| <==> forall x :: x in known ==> x in s
  {
    MembersCount(s);
    if |s| == |known| { Subset(Members(s), known); }
    if forall x :: x in known ==> x in s { assert Members(s) == known; }
  }

  lemma Subset(a: set<nat>, b: set<nat>)
    requires a <= b && |a| == |b|
    ensures a == b
  {
    assert |b - a| == 0;
  }

  /** No entry, old or new, is lost if and only if no creation publishes over another's publication. */
  lemma NothingLostExactlyWhen(desc: map<nat, Desc>, ring: seq<nat>, acts: seq<Act>)
    requires IsRing(desc, ring) && Proper(ring, acts) && Described(desc, acts)
    ensures (forall x :: x in ring || x in Published(acts) ==> x in [ring[0]] + After(ring, acts).tail)
            <==> !Overlaps(acts)
  {
    AlwaysGood(desc, ring, acts);
    AlwaysCounted(desc, ring, acts);
    var tail, known := After(ring, acts).tail, Known(ring, acts);
    AllMembers(tail, known);
    assert forall x :: x in ring ==> x == ring[0] || x in ring[1..];
    assert ring[0] !in known;
    if forall x :: x in ring || x in Published(acts) ==> x in [ring[0]] + tail {
      forall x | x in known ensures x in tail { assert x in [ring[0]] + tail; }
    }
  }

  lemma ProperGrows(ring: seq<nat>, acts: seq<Act>, act: Act)
    requires Proper(ring, acts)
    requires act.Link? ==> act.task !in ring && act.task !in Linked(acts)
    requires act.Publish? ==> act.task in Linked(acts) && act.task !in Published(acts)
    ensures Proper(ring, acts + [act])
    ensures Linked(acts + [act]) == Linked(acts) + (if act.Link? then {act.task} else {})
    ensures Published(acts + [act]) == Published(acts) + (if act.Publish? then {act.task} else {})
  {
    Shorter(acts + [act]);
    assert (acts + [act])[..|acts|] == acts;
  }

  /** The old entries are behind the head for good. */
  lemma {:induction false} OldStay(ring: seq<nat>, acts: seq<Act>)
    requires ring != [] && Proper(ring, acts)
    ensures var v := After(ring, acts);
            && (forall x :: x in ring[1..] ==> x in v.tail)
            && (forall t, x :: t in v.seen && x in ring[1..] ==> x in v.seen[t])
            && v.seen.Keys == Linked(acts)
  {
    if acts != [] {
      Shorter(acts);
      OldStay(ring, acts[..|acts| - 1]);
    }
  }

  /** Memory and the head determine the ring. */
  lemma {:induction false} SamePrefix(desc: map<nat, Desc>, r: seq<nat>, s: seq<nat>, n: nat)
    requires IsRing(desc, r) && IsRing(desc, s) && r[0] == s[0] && n <= |r| && n <= |s|
    ensures r[..n] == s[..n]
  {
    if n > 1 {
      SamePrefix(desc, r, s, n - 1);
      assert r[n - 2] == r[..n - 1][n - 2] == s[..n - 1][n - 2] == s[n - 2];
      assert Links(desc, r, n - 2) && Links(desc, s, n - 2);
    }
  }

  lemma OneRingOnly(desc: map<nat, Desc>, r: seq<nat>, s: seq<nat>)
    requires IsRing(desc, r) && IsRing(desc, s) && r[0] == s[0]
    ensures r == s
  {
    var n := if |r| <= |s| then |r| else |s|;
    SamePrefix(desc, r, s, n);
    assert r[n - 1] == r[..n][n - 1] == s[..n][n - 1] == s[n - 1];
    assert Links(desc, r, n - 1) && Links(desc, s, n - 1);
    assert r[..n] == s[..n];
  }
}
