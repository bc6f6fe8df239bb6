/**
 The order in which a circular list with some runnable members is visited when each step takes
 the first runnable member after the current one (scheduler_next of REPLAY-OS, task.c).
 Positions are indices into the ring; `run[i]` says whether position i may run.
 */
module RoundRobin {

  ghost predicate SomeRunnable(run: seq<bool>) {
    exists i :: 0 <= i < |run| && run[i]
  }

  /** Forward distance from position i to position j on a ring of n: 1 for the next, n for i itself. */
  function Gap(i: nat, j: nat, n: nat): (g: nat)
    requires i < n && j < n
    ensures 1 <= g <= n
  {
    if j > i then j - i else j + n - i
  }

  /** The position g steps after i. */
  function At(i: nat, g: nat, n: nat): (j: nat)
    requires i < n && 1 <= g <= n
    ensures j < n && Gap(i, j, n) == g
  {
    if i + g < n then i + g else i + g - n
  }

  /** No runnable position lies less than g steps after i. */
  ghost predicate NoneBefore(run: seq<bool>, i: nat, g: nat)
    requires i < |run|
  {
    forall k :: 0 <= k < |run| && Gap(i, k, |run|) < g ==> !run[k]
  }

  /** j is the first runnable position after i (possibly i itself, once round). */
  ghost predicate IsNext(run: seq<bool>, i: nat, j: nat)
    requires i < |run|
  {
    j < |run| && run[j] && NoneBefore(run, i, Gap(i, j, |run|))
  }

  function Seek(run: seq<bool>, i: nat, g: nat): (j: nat)
    requires i < |run| && 1 <= g <= |run|
    ensures j < |run|
    decreases |run| - g
  {
    var j := At(i, g, |run|);
    if run[j] || g == |run| then j else Seek(run, i, g + 1)
  }

  /** The position chosen after position i. */
  function Next(run: seq<bool>, i: nat): (j: nat)
    requires i < |run|
    ensures j < |run|
  {
    Seek(run, i, 1)
  }

  lemma {:induction false} SeekIsNext(run: seq<bool>, i: nat, g: nat)
    requires i < |run| && 1 <= g <= |run| && SomeRunnable(run) && NoneBefore(run, i, g)
    ensures IsNext(run, i, Seek(run, i, g))
    decreases |run| - g
  {
    var j := At(i, g, |run|);
    if !run[j] {
      forall k | 0 <= k < |run| && Gap(i, k, |run|) == g ensures k == j {}
      SeekIsNext(run, i, g + 1);
    }
  }

  lemma NextIsNext(run: seq<bool>, i: nat)
    requires i < |run| && SomeRunnable(run)
    ensures IsNext(run, i, Next(run, i))
  {
    SeekIsNext(run, i, 1);
  }

  lemma NextIsUnique(run: seq<bool>, i: nat, j: nat)
    requires i < |run| && IsNext(run, i, j)
    ensures j == Next(run, i)
  {
    assert run[j];
    NextIsNext(run, i);
    assert Gap(i, j, |run|) == Gap(i, Next(run, i), |run|);
  }

  /** The position after k scheduling decisions. */
  function Pick(run: seq<bool>, i: nat, k: nat): (j: nat)
    requires i < |run|
    ensures j < |run|
  {
    if k == 0 then i else Next(run, Pick(run, i, k - 1))
  }

  lemma PickRunnable(run: seq<bool>, i: nat, k: nat)
    requires i < |run| && SomeRunnable(run) && k > 0
    ensures run[Pick(run, i, k)]
  {
    NextIsNext(run, Pick(run, i, k - 1));
  }

  /** How many runnable positions come before j. */
  function Rank(run: seq<bool>, j: nat): (r: nat)
    requires j <= |run|
    ensures r <= j
  {
    if j == 0 then 0 else Rank(run, j - 1) + (if run[j - 1] then 1 else 0)
  }

  /** The number of runnable positions. */
  function Count(run: seq<bool>): nat {
    Rank(run, |run|)
  }

  lemma {:induction false} RankGrows(run: seq<bool>, i: nat, j: nat)
    requires i <= j <= |run|
    ensures Rank(run, i) <= Rank(run, j)
    ensures i < j && run[i] ==> Rank(run, i) < Rank(run, j)
    ensures (forall k :: i <= k < j ==> !run[k]) ==> Rank(run, i) == Rank(run, j)
    decreases j
  {
    if i < j { RankGrows(run, i, j - 1); }
  }

  /** Runnable positions are numbered 0 .. Count-1 without repetition. */
  lemma RankNumbers(run: seq<bool>, i: nat, j: nat)
    requires i < |run| && j < |run| && run[i] && run[j]
    ensures Rank(run, i) < Count(run)
    ensures Rank(run, i) == Rank(run, j) <==> i == j
  {
    RankGrows(run, i, |run|);
    if i < j { RankGrows(run, i, j); } else { RankGrows(run, j, i); }
  }

  /** The next position further on is the next runnable one, so it has the next number. */
  lemma NextAhead(run: seq<bool>, i: nat, j: nat)
    requires i < |run| && IsNext(run, i, j) && i < j && run[i]
    ensures Rank(run, j) == Rank(run, i) + 1 < Count(run)
  {
    forall k | i + 1 <= k < j ensures !run[k] { assert Gap(i, k, |run|) < Gap(i, j, |run|); }
    RankGrows(run, i + 1, j);
    RankGrows(run, j, |run|);
  }

  /** If the next position is not further on, i was the last runnable one and j is the first. */
  lemma NextAround(run: seq<bool>, i: nat, j: nat)
    requires i < |run| && IsNext(run, i, j) && j <= i && run[i]
    ensures Rank(run, j) == 0 && Rank(run, i) + 1 == Count(run)
  {
    forall k | i + 1 <= k < |run| ensures !run[k] { assert Gap(i, k, |run|) < Gap(i, j, |run|); }
    forall k | 0 <= k < j ensures !run[k] { assert Gap(i, k, |run|) < Gap(i, j, |run|); }
    RankGrows(run, i + 1, |run|);
    RankGrows(run, 0, j);
  }

  /** From a runnable position the next one has the next number, wrapping to 0. */
  lemma NextRank(run: seq<bool>, i: nat)
    requires i < |run| && run[i]
    ensures Rank(run, Next(run, i)) == if Rank(run, i) + 1 < Count(run) then Rank(run, i) + 1 else 0
  {
    NextIsNext(run, i);
    if i < Next(run, i) { NextAhead(run, i, Next(run, i)); } else { NextAround(run, i, Next(run, i)); }
  }

  function Wrapped(r: nat, count: nat): nat {
    if r < count then r else r - count
  }

  lemma {:induction false} PickRank(run: seq<bool>, i: nat, k: nat)
    requires i < |run| && SomeRunnable(run) && 1 <= k <= Count(run)
    ensures Rank(run, Pick(run, i, k)) == Wrapped(Rank(run, Pick(run, i, 1)) + k - 1, Count(run))
    decreases k
  {
    PickRunnable(run, i, 1);
    RankNumbers(run, Pick(run, i, 1), Pick(run, i, 1));
    if k > 1 {
      PickRank(run, i, k - 1);
      PickRunnable(run, i, k - 1);
      NextRank(run, Pick(run, i, k - 1));
    }
  }

  /** Position p is among the next Count choices. */
  ghost predicate Chosen(run: seq<bool>, i: nat, p: nat)
    requires i < |run|
  {
    exists k :: 1 <= k <= Count(run) && Pick(run, i, k) == p
  }

  /** Any Count consecutive decisions, from any position, reach every runnable position ... */
  lemma EachChosen(run: seq<bool>, i: nat, p: nat)
    requires i < |run| && p < |run| && run[p]
    ensures Chosen(run, i, p)
  {
    var first := Rank(run, Pick(run, i, 1));
    PickRunnable(run, i, 1);
    RankNumbers(run, p, p);
    RankNumbers(run, Pick(run, i, 1), p);
    var k := if Rank(run, p) >= first then Rank(run, p) - first + 1 else Rank(run, p) + Count(run) - first + 1;
    PickRank(run, i, k);
    PickRunnable(run, i, k);
    RankNumbers(run, Pick(run, i, k), p);
  }

  /** ... and no position twice. */
  lemma NoneTwice(run: seq<bool>, i: nat, k: nat, l: nat)
    requires i < |run| && SomeRunnable(run) && 1 <= k < l <= Count(run)
    ensures Pick(run, i, k) != Pick(run, i, l)
  {
    PickRunnable(run, i, 1);
    RankNumbers(run, Pick(run, i, 1), Pick(run, i, 1));
    PickRank(run, i, k);
    PickRank(run, i, l);
  }

  /** So with Count runnable tasks any Count consecutive decisions choose each of them exactly once. */
  lemma EachOnce(run: seq<bool>, i: nat)
    requires i < |run| && SomeRunnable(run)
    ensures forall p :: 0 <= p < |run| && run[p] ==> Chosen(run, i, p)
    ensures forall k, l :: 1 <= k < l <= Count(run) ==> Pick(run, i, k) != Pick(run, i, l)
  {
    forall p | 0 <= p < |run| && run[p] ensures Chosen(run, i, p) {
      EachChosen(run, i, p);
    }
    forall k, l | 1 <= k < l <= Count(run) ensures Pick(run, i, k) != Pick(run, i, l) {
      NoneTwice(run, i, k, l);
    }
  }

  /** Hence the choices repeat with period Count. */
  lemma PickPeriod(run: seq<bool>, i: nat, k: nat)
    requires i < |run| && SomeRunnable(run) && k >= 1
    ensures Pick(run, i, k + Count(run)) == Pick(run, i, k)
  {
    var j, n := Pick(run, i, k), Count(run);
    PickSplit(run, i, k, n);
    PickRunnable(run, i, k);
    RankNumbers(run, j, j);
    FullTurn(run, j);
  }

  lemma FullTurn(run: seq<bool>, j: nat)
    requires j < |run| && run[j] && Count(run) > 0
    ensures Pick(run, j, Count(run)) == j
  {
    RankNumbers(run, j, j);
    NextRank(run, j);
    assert Pick(run, j, 0) == j;
    assert Pick(run, j, 1) == Next(run, j);
    PickRank(run, j, Count(run));
    PickRunnable(run, j, Count(run));
    RankNumbers(run, Pick(run, j, Count(run)), j);
  }

  lemma {:induction false} PickSplit(run: seq<bool>, i: nat, k: nat, l: nat)
    requires i < |run|
    ensures Pick(run, i, k + l) == Pick(run, Pick(run, i, k), l)
    decreases l
  {
    if l > 0 {
      PickSplit(run, i, k, l - 1);
      assert k + l - 1 == k + (l - 1);
    }
  }
}
