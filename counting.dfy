/**
 * The bead counter of the counting screen.
 *
 * A ring of `TotalBeads` beads is shown on a vertical scroll surface made of
 * three copies of the ring, so scroll positions ("slots") run over
 * [0, 3 * TotalBeads). Every settled scroll position is folded back into the
 * middle copy and counts as one recitation exactly when it is one bead
 * further along the ring than the last committed position.
 */
module Counting {
  import opened Wrappers
  import opened Arith

  /** Number of beads on the ring. */
  const TotalBeads: int := 11

  /** A scroll position of the surface: one of the `3 * TotalBeads` slots. */
  predicate IsSlot(i: int) {
    0 <= i < 3 * TotalBeads
  }

  /** A position of the middle copy of the ring, where committed positions live. */
  predicate InMiddleBand(i: int) {
    TotalBeads <= i < 2 * TotalBeads
  }

  /** The bead numbers shown on the scroll surface: three copies of 0, 1, ..., TotalBeads - 1. */
  function LoopedBeads(): (beads: seq<int>)
    ensures |beads| == 3 * TotalBeads
    ensures forall i :: 0 <= i < |beads| ==> beads[i] == i % TotalBeads
  {
    var ring := seq(TotalBeads, i => i);
    ring + ring + ring
  }

  function Abs(x: int): nat {
    if x < 0 then -x else x
  }

  function Min(a: int, b: int): int {
    if a <= b then a else b
  }

  /**
   * Distance between two positions around a ring of `total` beads, the
   * shorter way round. The operand of `%` is never negative, so the
   * truncating remainder of the source and Dafny's `%` agree.
   */
  function CircularDistance(from: int, to: int, total: int): (d: int)
    requires total > 0
    ensures 0 <= d <= total / 2
    ensures d == 0 <==> from % total == to % total
  {
    var diff := Abs(to - from) % total;
    AbsModZero(to - from, total);
    DiffModZero(to, from, total);
    Min(diff, total - diff)
  }

  lemma CircularDistanceSymmetric(from: int, to: int, total: int)
    requires total > 0
    ensures CircularDistance(from, to, total) == CircularDistance(to, from, total)
  {
  }

  /** Walking `steps` beads from `from` (backwards when negative) lands on the bead of `to`. */
  predicate Reaches(from: int, steps: int, to: int, total: int)
    requires total > 0
  {
    (from + steps) % total == to % total
  }

  /**
   * The distance is the shortest way round: walking it one way or the other
   * reaches `to`, and no shorter walk in either direction does.
   */
  lemma CircularDistanceIsShortestWay(from: int, to: int, total: int)
    requires total > 0
    ensures var d := CircularDistance(from, to, total);
      Reaches(from, d, to, total) || Reaches(from, -d, to, total)
    ensures var d := CircularDistance(from, to, total);
      forall k :: -d < k < d ==> !Reaches(from, k, to, total)
  {
    var n := total;
    var x := to - from;
    var diff := Abs(x) % n;
    var q := Abs(x) / n;
    var d := CircularDistance(from, to, total);
    if x >= 0 {
      assert x - diff == q * n + 0;
      ModUnique(x - diff, q, 0, n);
      assert x + (n - diff) == (q + 1) * n + 0;
      ModUnique(x + (n - diff), q + 1, 0, n);
    } else {
      assert x + diff == -q * n + 0;
      ModUnique(x + diff, -q, 0, n);
      assert x - (n - diff) == (-q - 1) * n + 0;
      ModUnique(x - (n - diff), -q - 1, 0, n);
    }
    ReachesIff(from, d, to, n);
    ReachesIff(from, -d, to, n);
    forall k | -d < k < d ensures !Reaches(from, k, to, total) {
      NotReachedSooner(from, to, n, k);
    }
  }

  lemma ReachesIff(from: int, steps: int, to: int, n: int)
    requires n > 0
    ensures Reaches(from, steps, to, n) <==> (to - from - steps) % n == 0
  {
    DiffModZero(to, from + steps, n);
  }

  lemma NotReachedSooner(from: int, to: int, n: int, k: int)
    requires n > 0
    requires -CircularDistance(from, to, n) < k < CircularDistance(from, to, n)
    ensures !Reaches(from, k, to, n)
  {
    var x := to - from;
    var diff := Abs(x) % n;
    var q := Abs(x) / n;
    assert k < diff && k < n - diff && -k < diff && -k < n - diff;
    ReachesIff(from, k, to, n);
    if x >= 0 {
      assert x == q * n + diff;
      assert x - k == q * n + (diff - k);
      ModUnique(x - k, q, diff - k, n);
    } else {
      assert x == -q * n - diff;
      assert x - k == (-q - 1) * n + (n - diff - k);
      ModUnique(x - k, -q - 1, n - diff - k, n);
    }
  }

  /** Folds any slot back into the middle copy of the ring. */
  function AdjustIndex(index: int): (corrected: int)
    ensures corrected % TotalBeads == index % TotalBeads
    ensures IsSlot(index) ==> InMiddleBand(corrected)
    ensures InMiddleBand(index) ==> corrected == index
  {
    if index < TotalBeads then index + TotalBeads
    else if index >= TotalBeads * 2 then index - TotalBeads
    else index
  }

  /**
   * The test the counter applies to a corrected position: one step down the
   * middle band, or the wrap from its lowest to its highest position.
   */
  predicate IsForwardStep(previousIndex: int, correctedIndex: int) {
    var difference := correctedIndex - previousIndex;
    difference == -1 || difference == TotalBeads - 1
  }

  function Sum(s: seq<int>): int {
    if s == [] then 0 else Sum(s[..|s| - 1]) + s[|s| - 1]
  }

  /** The state fields of the counting screen that the counter updates. */
  datatype CounterState = CounterState(
    selectedIndex: Option<int>,
    previousIndex: int,
    numCount: int,
    beadCounts: seq<int>)

  /** What holds of the counter after every event. */
  ghost predicate Invariant(s: CounterState) {
    && InMiddleBand(s.previousIndex)
    && |s.beadCounts| == TotalBeads
    && (forall b :: 0 <= b < |s.beadCounts| ==> s.beadCounts[b] >= 0)
    && Sum(s.beadCounts) == s.numCount
  }

  /** The state of a fresh counting session. */
  function InitialState(): (s: CounterState)
    ensures Invariant(s) && s.numCount == 0
  {
    var zeros := seq(TotalBeads, _ => 0);
    SumZeros(zeros);
    CounterState(Some(TotalBeads), TotalBeads, 0, zeros)
  }

  /** The effect of one settled scroll position (None: the scroll position was cleared). */
  function Step(s: CounterState, newIndex: Option<int>): (t: CounterState)
    requires |s.beadCounts| == TotalBeads
    requires newIndex.Some? ==> IsSlot(newIndex.value)
    ensures |t.beadCounts| == TotalBeads
    ensures s.numCount <= t.numCount <= s.numCount + 1
    ensures t.numCount - s.numCount == Sum(t.beadCounts) - Sum(s.beadCounts)
    ensures newIndex.Some? ==> t.selectedIndex == Some(t.previousIndex)
  {
    match newIndex
    case None => s
    case Some(n) =>
      var corrected := AdjustIndex(n);
      if IsForwardStep(s.previousIndex, corrected) then
        var bead := LoopedBeads()[corrected];
        SumIncrement(s.beadCounts, bead);
        s.(selectedIndex := Some(corrected),
           previousIndex := corrected,
           numCount := s.numCount + 1,
           beadCounts := s.beadCounts[bead := s.beadCounts[bead] + 1])
      else
        s.(selectedIndex := Some(s.previousIndex))
  }

  /** Every event keeps the index band, the non-negative tallies and `Sum(beadCounts) == numCount`. */
  lemma StepPreservesInvariant(s: CounterState, newIndex: Option<int>)
    requires Invariant(s)
    requires newIndex.Some? ==> IsSlot(newIndex.value)
    ensures Invariant(Step(s, newIndex))
    ensures Step(s, newIndex).numCount >= s.numCount
  {
    var t := Step(s, newIndex);
    if newIndex.Some? && IsForwardStep(s.previousIndex, AdjustIndex(newIndex.value)) {
      var bead := LoopedBeads()[AdjustIndex(newIndex.value)];
      assert t.beadCounts == s.beadCounts[bead := s.beadCounts[bead] + 1];
      forall b | 0 <= b < |t.beadCounts| ensures t.beadCounts[b] >= 0 {
        if b != bead {
          assert t.beadCounts[b] == s.beadCounts[b];
        }
      }
    }
  }

  /**
   * The two-sided test of the source is a single test on the ring: a settled
   * slot is accepted exactly when it shows the bead just before the
   * committed one, going round the ring.
   */
  lemma StepAcceptsPreviousBead(s: CounterState, n: int)
    requires |s.beadCounts| == TotalBeads && InMiddleBand(s.previousIndex)
    requires IsSlot(n)
    ensures IsForwardStep(s.previousIndex, AdjustIndex(n))
        <==> (s.previousIndex - AdjustIndex(n)) % TotalBeads == 1
    ensures IsForwardStep(s.previousIndex, AdjustIndex(n))
        <==> n % TotalBeads == (s.previousIndex % TotalBeads + TotalBeads - 1) % TotalBeads
    ensures Step(s, Some(n)).numCount == s.numCount + 1
        <==> n % TotalBeads == (s.previousIndex % TotalBeads + TotalBeads - 1) % TotalBeads
  {
    var c := AdjustIndex(n);
    var p := s.previousIndex;
    assert c % TotalBeads == c - TotalBeads;
    assert p % TotalBeads == p - TotalBeads;
    var d := p - c;
    assert -TotalBeads < d < TotalBeads;
    if d == 1 || d == -(TotalBeads - 1) {
      assert d % TotalBeads == 1;
    } else {
      assert d % TotalBeads != 1;
    }
  }

  /**
   * An accepted step raises the tally of the bead under the settled slot by
   * one and leaves every other tally alone; that bead is always on the ring.
   */
  lemma StepTalliesSettledBead(s: CounterState, n: int)
    requires |s.beadCounts| == TotalBeads
    requires IsSlot(n)
    ensures 0 <= n % TotalBeads < |s.beadCounts|
    ensures IsForwardStep(s.previousIndex, AdjustIndex(n)) ==>
      Step(s, Some(n)).beadCounts == s.beadCounts[n % TotalBeads := s.beadCounts[n % TotalBeads] + 1]
    ensures !IsForwardStep(s.previousIndex, AdjustIndex(n)) ==>
      Step(s, Some(n)).beadCounts == s.beadCounts
  {
  }

  /**
   * Writing the scroll position fires the change handler again with the
   * position the handler itself wrote; that second event changes nothing.
   */
  lemma StepIsSettled(s: CounterState, n: int)
    requires |s.beadCounts| == TotalBeads && InMiddleBand(s.previousIndex)
    requires IsSlot(n)
    ensures Step(s, Some(n)).selectedIndex.Some?
    ensures IsSlot(Step(s, Some(n)).selectedIndex.value)
    ensures Step(Step(s, Some(n)), Step(s, Some(n)).selectedIndex) == Step(s, Some(n))
  {
  }

  /** A sequence of events applied one after the other. */
  function Run(s: CounterState, events: seq<Option<int>>): (t: CounterState)
    requires |s.beadCounts| == TotalBeads
    requires forall k :: 0 <= k < |events| && events[k].Some? ==> IsSlot(events[k].value)
    ensures |t.beadCounts| == TotalBeads
    ensures s.numCount <= t.numCount <= s.numCount + |events|
    decreases |events|
  {
    if events == [] then s else Run(Step(s, events[0]), events[1..])
  }

  /** Every event of the sequence is a settled slot one bead forward of the position before it. */
  ghost predicate AllForward(s: CounterState, events: seq<Option<int>>)
    requires |s.beadCounts| == TotalBeads
    requires forall k :: 0 <= k < |events| && events[k].Some? ==> IsSlot(events[k].value)
    decreases |events|
  {
    events == [] ||
    (events[0].Some? &&
     IsForwardStep(s.previousIndex, AdjustIndex(events[0].value)) &&
     AllForward(Step(s, events[0]), events[1..]))
  }

  /**
   * After N events the count has risen by exactly N if and only if every
   * one of them was a single forward step.
   */
  lemma {:induction false} RunCountsForwardSteps(s: CounterState, events: seq<Option<int>>)
    requires |s.beadCounts| == TotalBeads
    requires forall k :: 0 <= k < |events| && events[k].Some? ==> IsSlot(events[k].value)
    ensures Run(s, events).numCount == s.numCount + |events| <==> AllForward(s, events)
    decreases |events|
  {
    if events != [] {
      RunCountsForwardSteps(Step(s, events[0]), events[1..]);
    }
  }

  /** The invariant holds after any sequence of events. */
  lemma {:induction false} RunPreservesInvariant(s: CounterState, events: seq<Option<int>>)
    requires Invariant(s)
    requires forall k :: 0 <= k < |events| && events[k].Some? ==> IsSlot(events[k].value)
    ensures Invariant(Run(s, events))
    decreases |events|
  {
    if events != [] {
      StepPreservesInvariant(s, events[0]);
      RunPreservesInvariant(Step(s, events[0]), events[1..]);
    }
  }

  /**
   * From a fresh session, settling on slots 10, 9 and 8 counts three beads:
   * slot 10 folds to 21, the wrap from the lowest middle position 11.
   */
  lemma ThreeForwardSlotsCountThree()
    ensures Run(InitialState(), [Some(10), Some(9), Some(8)]).numCount == 3
  {
    var s0 := InitialState();
    var s1 := Step(s0, Some(10));
    assert s1.numCount == 1 && s1.previousIndex == 21;
    var s2 := Step(s1, Some(9));
    assert s2.numCount == 2 && s2.previousIndex == 20;
    var s3 := Step(s2, Some(8));
    assert s3.numCount == 3;
    assert [Some(10), Some(9), Some(8)][1..] == [Some(9), Some(8)];
    assert [Some(9), Some(8)][1..] == [Some(8)];
    assert [Some(8)][1..] == [];
  }

  /** What a finished session hands to the record list. */
  datatype Session = Session(count: int, startTime: int, duration: int, name: string)

  /**
   * The counting screen. `beadCounts` is updated in place; the other state
   * fields are reassigned by the change handler.
   */
  class BeadCounter {
    const loopedBeads: seq<int>
    const startTime: int
    const name: string
    const beadCounts: array<int>
    var selectedIndex: Option<int>
    var previousIndex: int
    var numCount: int

    ghost function State(): CounterState
      reads this, beadCounts
    {
      CounterState(selectedIndex, previousIndex, numCount, beadCounts[..])
    }

    ghost predicate Valid()
      reads this, beadCounts
    {
      loopedBeads == LoopedBeads() && Invariant(State())
    }

    /** A new session for `inputName`, started at `startTime` (seconds). */
    constructor (startTime: int, inputName: string)
      ensures Valid() && fresh(beadCounts)
      ensures State() == InitialState()
      ensures this.startTime == startTime && name == inputName
    {
      loopedBeads := LoopedBeads();
      beadCounts := new int[TotalBeads](_ => 0);
      selectedIndex := Some(TotalBeads);
      previousIndex := TotalBeads;
      numCount := 0;
      this.startTime := startTime;
      name := inputName;
      new;
      assert beadCounts[..] == seq(TotalBeads, _ => 0);
      assert State() == InitialState();
    }

    /** The change handler for a settled scroll position. */
    method HandleSelectionChange(newIndex: Option<int>)
      requires Valid()
      requires newIndex.Some? ==> IsSlot(newIndex.value)
      modifies this, beadCounts
      ensures Valid()
      ensures State() == Step(old(State()), newIndex)
      ensures newIndex.None? ==> State() == old(State())
      ensures newIndex.Some? && IsForwardStep(old(previousIndex), AdjustIndex(newIndex.value)) ==>
        && numCount == old(numCount) + 1
        && previousIndex == AdjustIndex(newIndex.value)
        && selectedIndex == Some(previousIndex)
        && beadCounts[..] == old(beadCounts[..])[newIndex.value % TotalBeads := old(beadCounts[newIndex.value % TotalBeads]) + 1]
      ensures newIndex.Some? && !IsForwardStep(old(previousIndex), AdjustIndex(newIndex.value)) ==>
        && numCount == old(numCount)
        && previousIndex == old(previousIndex)
        && selectedIndex == Some(old(previousIndex))
        && beadCounts[..] == old(beadCounts[..])
    {
      if newIndex.None? {
        return;
      }
      ghost var before := State();
      var correctedIndex := AdjustIndex(newIndex.value);
      var difference := correctedIndex - previousIndex;
      if difference == -1 || difference == TotalBeads - 1 {
        var actualBead := loopedBeads[correctedIndex];
        beadCounts[actualBead] := beadCounts[actualBead] + 1;
        numCount := numCount + 1;
        previousIndex := correctedIndex;
        selectedIndex := Some(correctedIndex);
      } else {
        selectedIndex := Some(previousIndex);
      }
      assert State() == Step(before, newIndex);
      StepPreservesInvariant(before, newIndex);
      StepTalliesSettledBead(before, newIndex.value);
    }

    /** Ends the session at time `now`: the count, start, elapsed time and name. */
    function Finalize(now: int): (session: Session)
      reads this, beadCounts
      requires Valid()
      ensures session == Session(numCount, startTime, now - startTime, name)
      ensures session.count == Sum(beadCounts[..]) && session.count >= 0
      ensures session.startTime + session.duration == now
      ensures session.name == name
    {
      SumNonNegative(beadCounts[..]);
      Session(numCount, startTime, now - startTime, name)
    }
  }

  // Arithmetic and summation facts used above.

  lemma AbsModZero(x: int, n: int)
    requires n > 0
    ensures Abs(x) % n == 0 <==> x % n == 0
  {
    if x < 0 {
      var q := x / n;
      var r := x % n;
      assert x == q * n + r;
      if r == 0 {
        assert -x == (-q) * n;
        ModOfMultiple(-q, n);
      } else {
        assert -x == (-q - 1) * n + (n - r);
        ModUnique(-x, -q - 1, n - r, n);
      }
    }
  }

  lemma SumZeros(s: seq<int>)
    requires forall i :: 0 <= i < |s| ==> s[i] == 0
    ensures Sum(s) == 0
  {
    if s != [] {
      SumZeros(s[..|s| - 1]);
    }
  }

  lemma SumNonNegative(s: seq<int>)
    requires forall i :: 0 <= i < |s| ==> s[i] >= 0
    ensures Sum(s) >= 0
  {
    if s != [] {
      SumNonNegative(s[..|s| - 1]);
    }
  }

  lemma {:induction false} SumIncrement(s: seq<int>, b: int)
    requires 0 <= b < |s|
    ensures Sum(s[b := s[b] + 1]) == Sum(s) + 1
    decreases |s|
  {
    var t := s[b := s[b] + 1];
    var last := |s| - 1;
    if b == last {
      assert t[..last] == s[..last];
    } else {
      assert t[..last] == s[..last][b := s[b] + 1];
      SumIncrement(s[..last], b);
    }
  }
}
