/**
 * The night penalty: every complete hour a duty period spends inside the
 * daily window [02:00, 10:00) costs 30 minutes of allowed duty time.
 *
 * Timestamps are naive local times, written as whole seconds since midnight
 * of a reference day 0; durations are whole seconds and may be negative.
 * The calendar day of a timestamp t is t / 86400 (floor division).
 */
module NightPenalty {

  // The numbers below are written out so that the solver sees linear
  // arithmetic: a day is 86400 s, an hour 3600 s, the window opens at
  // 7200 s (02:00) and closes at 36000 s (10:00) after midnight, and each
  // complete hour of overlap costs 1800 s (30 minutes).

  function Max(a: int, b: int): int { if a < b then b else a }
  function Min(a: int, b: int): int { if a < b then a else b }

  /** The calendar day a timestamp falls on. */
  function Day(t: int): int { t / 86400 }

  /** The timestamps at which day d's penalty window opens and closes. */
  function WindowOpen(d: int): int { d * 86400 + 7200 }
  function WindowClose(d: int): int { d * 86400 + 36000 }

  /**
   * Length, in seconds, of the intersection of [start, end] with day d's
   * window; zero when the intersection is empty or a single instant.
   */
  function Overlap(start: int, end: int, d: int): (r: int)
    ensures 0 <= r <= 8 * 3600
    ensures r > 0 ==> start < WindowClose(d) && WindowOpen(d) < end
  {
    var lo := Max(start, WindowOpen(d));
    var hi := Min(end, WindowClose(d));
    if lo < hi then hi - lo else 0
  }

  /** Day d's contribution: 30 minutes per complete hour of overlap. */
  function DayPenalty(start: int, end: int, d: int): int
  {
    1800 * (Overlap(start, end, d) / 3600)
  }

  /** The penalty of days d through last, inclusive. */
  function PenaltyFrom(start: int, end: int, d: int, last: int): (r: int)
    ensures r >= 0 && r % 1800 == 0
    decreases last - d + 1
  {
    if d > last then 0
    else DayPenalty(start, end, d) + PenaltyFrom(start, end, d + 1, last)
  }

  /** The end of the duty period. */
  function DutyEnd(start: int, duration: int): int { start + duration }

  /** The first and last calendar days the scan visits. */
  function FirstScanDay(start: int): int { Day(start) - 1 }
  function LastScanDay(start: int, duration: int): int { Day(DutyEnd(start, duration)) }

  /**
   * The penalty of the duty period that begins at start and lasts duration:
   * the sum of the daily penalties from the day before the start through
   * the day of the end.
   */
  function PenaltyFor(start: int, duration: int): int
  {
    PenaltyFrom(start, DutyEnd(start, duration), FirstScanDay(start), LastScanDay(start, duration))
  }

  /** The penalty computation as the source runs it: a day-by-day scan with an accumulator. */
  method CalculatePenalty(start: int, duration: int) returns (total: int)
    ensures total == PenaltyFor(start, duration)
    ensures total >= 0 && total % 1800 == 0
  {
    var end := start + duration;
    total := 0;
    var current := Day(start - 86400);
    var last := Day(end);
    ghost var first := current;
    assert first == FirstScanDay(start) && last == LastScanDay(start, duration);
    while current <= last
      invariant first <= current && (current <= last + 1 || current == first)
      invariant total + PenaltyFrom(start, end, current, last) == PenaltyFrom(start, end, first, last)
      decreases last - current + 1
    {
      var overlapStart := Max(start, WindowOpen(current));
      var overlapEnd := Min(end, WindowClose(current));
      if overlapStart < overlapEnd {
        var completeHours := (overlapEnd - overlapStart) / 3600;
        total := total + 60 * (30 * completeHours);  // 30 minutes per complete hour
      } else {
        assert DayPenalty(start, end, current) == 0;
      }
      current := current + 1;
    }
  }

  // ---------------------------------------------------------------------
  // Properties of the penalty

  /** Halving: a day's penalty is at most half its overlap. */
  lemma DayPenaltyAtMostHalfOverlap(start: int, end: int, d: int)
    ensures 0 <= 2 * DayPenalty(start, end, d) <= Overlap(start, end, d)
  {
    var x := Overlap(start, end, d);
    assert 3600 * (x / 3600) <= x;
  }

  /**
   * The windows of days d, d+1, ... lie inside [WindowOpen(d), +inf) and are
   * disjoint, so twice their penalty is at most the part of [start, end]
   * from WindowOpen(d) on.
   */
  lemma {:induction false} PenaltyFromAtMostHalfSpan(start: int, end: int, d: int, last: int)
    ensures 2 * PenaltyFrom(start, end, d, last) <= Max(0, end - Max(start, WindowOpen(d)))
    decreases last - d + 1
  {
    if d <= last {
      PenaltyFromAtMostHalfSpan(start, end, d + 1, last);
      DayPenaltyAtMostHalfOverlap(start, end, d);
    }
  }

  /** The penalty is at most half the duration, and zero for a non-positive duration. */
  lemma PenaltyAtMostHalfDuration(start: int, duration: int)
    ensures 0 <= 2 * PenaltyFor(start, duration) <= Max(0, duration)
    ensures duration <= 0 ==> PenaltyFor(start, duration) == 0
  {
    PenaltyFromAtMostHalfSpan(start, start + duration, FirstScanDay(start), LastScanDay(start, duration));
  }

  /** The penalty is a non-negative whole number of half hours. */
  lemma PenaltyQuantised(start: int, duration: int)
    ensures PenaltyFor(start, duration) >= 0
    ensures PenaltyFor(start, duration) % 1800 == 0
  {
  }

  /** Days d..last contribute nothing exactly when none overlaps by a full hour. */
  lemma {:induction false} PenaltyFromZeroIff(start: int, end: int, d: int, last: int)
    ensures PenaltyFrom(start, end, d, last) == 0
        <==> forall k :: d <= k <= last ==> Overlap(start, end, k) < 3600
    decreases last - d + 1
  {
    if d <= last {
      PenaltyFromZeroIff(start, end, d + 1, last);
    }
  }

  /** The penalty is zero exactly when no scanned day's window overlaps the duty by a full hour. */
  lemma PenaltyZeroIff(start: int, duration: int)
    ensures PenaltyFor(start, duration) == 0
        <==> forall k :: FirstScanDay(start) <= k <= LastScanDay(start, duration) ==>
               Overlap(start, DutyEnd(start, duration), k) < 3600
  {
    PenaltyFromZeroIff(start, start + duration, FirstScanDay(start), LastScanDay(start, duration));
  }

  /**
   * The scan misses nothing: no window of a day before the day preceding the
   * start, or after the day of the end, meets [start, start + duration].
   */
  lemma OutsideScanNoOverlap(start: int, duration: int, k: int)
    requires k < FirstScanDay(start) || LastScanDay(start, duration) < k
    ensures Overlap(start, start + duration, k) == 0
  {
    if k < FirstScanDay(start) {
      assert WindowClose(k) <= start;
    } else {
      assert start + duration < (Day(start + duration) + 1) * 86400;
    }
  }

  /**
   * The window [02:00, 10:00) never crosses midnight, so the extra day the
   * scan visits before the start never adds anything: that day's window
   * closes before the start.
   */
  lemma DayBeforeStartAddsNothing(start: int, end: int)
    ensures Overlap(start, end, FirstScanDay(start)) == 0
    ensures DayPenalty(start, end, FirstScanDay(start)) == 0
  {
    assert WindowClose(FirstScanDay(start)) <= start;
  }

  /** A complete hour of overlap costs 30 minutes; anything less than an hour costs nothing. */
  lemma DayPenaltyStep(start: int, end: int, d: int)
    ensures Overlap(start, end, d) < 3600 ==> DayPenalty(start, end, d) == 0
    ensures 3600 <= Overlap(start, end, d) < 7200 ==> DayPenalty(start, end, d) == 1800
  {
  }

  // Monotonicity in the duration

  lemma DayPenaltyMonotone(start: int, end1: int, end2: int, d: int)
    requires end1 <= end2
    ensures DayPenalty(start, end1, d) <= DayPenalty(start, end2, d)
  {
    var x, y := Overlap(start, end1, d), Overlap(start, end2, d);
    assert x <= y;
    assert x / 3600 <= y / 3600;
  }

  lemma {:induction false} PenaltyFromMonotoneEnd(start: int, end1: int, end2: int, d: int, last: int)
    requires end1 <= end2
    ensures PenaltyFrom(start, end1, d, last) <= PenaltyFrom(start, end2, d, last)
    decreases last - d + 1
  {
    if d <= last {
      PenaltyFromMonotoneEnd(start, end1, end2, d + 1, last);
      DayPenaltyMonotone(start, end1, end2, d);
    }
  }

  lemma {:induction false} PenaltyFromMonotoneLast(start: int, end: int, d: int, last1: int, last2: int)
    requires last1 <= last2
    ensures PenaltyFrom(start, end, d, last1) <= PenaltyFrom(start, end, d, last2)
    decreases last2 - d + 1
  {
    if d <= last1 {
      PenaltyFromMonotoneLast(start, end, d + 1, last1, last2);
    }
  }

  /** For a fixed start, a longer duty never has a smaller penalty. */
  lemma PenaltyMonotone(start: int, duration1: int, duration2: int)
    requires duration1 <= duration2
    ensures PenaltyFor(start, duration1) <= PenaltyFor(start, duration2)
  {
    var first := FirstScanDay(start);
    var last1, last2 := LastScanDay(start, duration1), LastScanDay(start, duration2);
    assert last1 <= last2;
    PenaltyFromMonotoneEnd(start, start + duration1, start + duration2, first, last1);
    PenaltyFromMonotoneLast(start, start + duration2, first, last1, last2);
  }

  /**
   * Boundary cases on day 0: a duty starting at 02:00 pays nothing for 59
   * minutes and 30 minutes for 60; one starting at 10:00 touches the window
   * only at an instant and pays nothing.
   */
  lemma HourBoundaryExamples()
    ensures PenaltyFor(2 * 3600, 59 * 60) == 0
    ensures PenaltyFor(2 * 3600, 60 * 60) == 1800
    ensures PenaltyFor(10 * 3600, 60 * 60) == 0
  {
    assert PenaltyFrom(2 * 3600, 2 * 3600 + 59 * 60, 1, 0) == 0;
    assert PenaltyFrom(2 * 3600, 2 * 3600 + 59 * 60, 0, 0) == 0;
    assert PenaltyFrom(2 * 3600, 3 * 3600, 1, 0) == 0;
    assert PenaltyFrom(2 * 3600, 3 * 3600, 0, 0) == 1800;
    assert PenaltyFrom(10 * 3600, 11 * 3600, 1, 0) == 0;
    assert PenaltyFrom(10 * 3600, 11 * 3600, 0, 0) == 0;
  }
}
