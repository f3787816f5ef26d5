/**
 * The penalty convergence engine: the allowed duration depends on the
 * penalty, and the penalty on the end time the duration determines, so the
 * engine iterates candidate := base - penalty(start, candidate) until two
 * successive candidates are within a minute of each other, or for at most
 * ten rounds, and returns the candidate with the last penalty.
 */
module Convergence {
  import opened NightPenalty

  /** At most this many rounds (penalty evaluations). */
  const MaxRounds := 10
  /** Candidates closer than this many seconds count as converged. */
  const Tolerance := 60

  function Abs(x: int): int { if x < 0 then -x else x }

  /**
   * What a run of the iteration leaves behind: the returned duration and
   * penalty, whether it stopped on the tolerance test, and how many
   * penalties it evaluated.
   */
  datatype Run = Run(duration: int, penalty: int, converged: bool, evaluations: nat)

  /**
   * The iteration from candidate `candidate` with `rounds` rounds left.
   * On convergence the loop stops before adopting the new candidate, so it
   * is the current candidate that is returned.
   */
  function Iterate(start: int, base: int, candidate: int, rounds: nat): Run
    requires rounds >= 1
    decreases rounds
  {
    var penalty := PenaltyFor(start, candidate);
    var next := base - penalty;
    if Abs(next - candidate) < Tolerance then Run(candidate, penalty, true, 1)
    else if rounds == 1 then Run(next, penalty, false, 1)
    else
      var r := Iterate(start, base, next, rounds - 1);
      r.(evaluations := r.evaluations + 1)
  }

  /** The whole iteration, starting from the base duration. */
  function Converge(start: int, base: int): Run
  {
    Iterate(start, base, base, MaxRounds)
  }

  /** One round of the iteration: what it returns, or the run it hands over to. */
  lemma IterateStep(start: int, base: int, candidate: int, rounds: nat)
    requires rounds >= 1
    ensures var penalty := PenaltyFor(start, candidate);
            var next := base - penalty;
            var r := Iterate(start, base, candidate, rounds);
            if Abs(next - candidate) < Tolerance then r.duration == candidate && r.penalty == penalty
            else if rounds == 1 then r.duration == next && r.penalty == penalty
            else r.duration == Iterate(start, base, next, rounds - 1).duration
                 && r.penalty == Iterate(start, base, next, rounds - 1).penalty
  {
  }

  /** The iteration as the source runs it: a bounded loop with an early exit. */
  method ConvergeDuty(start: int, base: int) returns (duration: int, penalty: int)
    ensures duration == Converge(start, base).duration
    ensures penalty == Converge(start, base).penalty
  {
    hide PenaltyFor;  // only PenaltyFor's value matters here, not how it is computed
    ghost var goal := Converge(start, base);
    duration := base;
    penalty := 0;  // always overwritten: the loop runs at least once
    for round := 0 to MaxRounds
      invariant round < MaxRounds ==>
                  Iterate(start, base, duration, MaxRounds - round).duration == goal.duration
                  && Iterate(start, base, duration, MaxRounds - round).penalty == goal.penalty
      invariant round == MaxRounds ==> duration == goal.duration && penalty == goal.penalty
    {
      ghost var left := MaxRounds - round;
      IterateStep(start, base, duration, left);
      penalty := CalculatePenalty(start, duration);
      var next := base - penalty;
      if Abs(next - duration) < Tolerance {
        assert duration == goal.duration && penalty == goal.penalty;
        break;
      }
      assert left == 1 ==> next == goal.duration && penalty == goal.penalty;
      duration := next;
    }
  }

  // ---------------------------------------------------------------------
  // Properties of the iteration

  /**
   * Every run evaluates at least one and at most `rounds` penalties, returns
   * a whole number of half hours of penalty, and never exceeds the base.
   */
  lemma {:induction false} IterateBounds(start: int, base: int, candidate: int, rounds: nat)
    requires rounds >= 1
    requires candidate <= base
    ensures 1 <= Iterate(start, base, candidate, rounds).evaluations <= rounds
    ensures Iterate(start, base, candidate, rounds).duration <= base
    ensures Iterate(start, base, candidate, rounds).penalty >= 0
    ensures Iterate(start, base, candidate, rounds).penalty % 1800 == 0
    decreases rounds
  {
    var next := base - PenaltyFor(start, candidate);
    PenaltyQuantised(start, candidate);
    if Abs(next - candidate) >= Tolerance && rounds > 1 {
      IterateBounds(start, base, next, rounds - 1);
    }
  }

  /**
   * How the returned values relate. A converged run returns a candidate
   * together with that candidate's own penalty, within a minute of
   * base - penalty; an exhausted run used all rounds and returns exactly
   * base - penalty.
   */
  lemma {:induction false} IterateRelation(start: int, base: int, candidate: int, rounds: nat)
    requires rounds >= 1
    ensures var r := Iterate(start, base, candidate, rounds);
            r.converged ==> r.penalty == PenaltyFor(start, r.duration)
                            && Abs(base - r.penalty - r.duration) < Tolerance
    ensures var r := Iterate(start, base, candidate, rounds);
            !r.converged ==> r.duration == base - r.penalty && r.evaluations == rounds
    decreases rounds
  {
    var next := base - PenaltyFor(start, candidate);
    if Abs(next - candidate) >= Tolerance && rounds > 1 {
      IterateRelation(start, base, next, rounds - 1);
    }
  }

  /**
   * With a base that is a whole number of half hours, every candidate is too,
   * so the one-minute test means exact equality: a converged run returns a
   * true fixed point, duration == base - penalty(start, duration).
   */
  lemma {:induction false} IterateFixedPoint(start: int, base: int, candidate: int, rounds: nat)
    requires rounds >= 1
    requires base % 1800 == 0 && candidate % 1800 == 0
    ensures var r := Iterate(start, base, candidate, rounds);
            r.converged ==> r.duration == base - PenaltyFor(start, r.duration)
    ensures var r := Iterate(start, base, candidate, rounds);
            r.duration == base - r.penalty
    decreases rounds
  {
    var next := base - PenaltyFor(start, candidate);
    PenaltyQuantised(start, candidate);
    assert (next - candidate) % 1800 == 0;
    if Abs(next - candidate) >= Tolerance && rounds > 1 {
      IterateFixedPoint(start, base, next, rounds - 1);
    }
  }

  /**
   * For a non-negative base the result is never negative: every penalty is
   * at most half its candidate, so every candidate stays at least half the
   * base.
   */
  lemma {:induction false} IterateAtLeastHalfBase(start: int, base: int, candidate: int, rounds: nat)
    requires rounds >= 1
    requires 0 <= base <= 2 * candidate && candidate <= base
    ensures base <= 2 * Iterate(start, base, candidate, rounds).duration
    ensures 0 <= 2 * Iterate(start, base, candidate, rounds).penalty <= base
    decreases rounds
  {
    var next := base - PenaltyFor(start, candidate);
    PenaltyAtMostHalfDuration(start, candidate);
    if Abs(next - candidate) >= Tolerance && rounds > 1 {
      IterateAtLeastHalfBase(start, base, next, rounds - 1);
    }
  }

  /** The properties of the whole iteration, from the base duration. */
  lemma ConvergeProperties(start: int, base: int)
    ensures var r := Converge(start, base);
            1 <= r.evaluations <= MaxRounds && r.duration <= base
            && r.penalty >= 0 && r.penalty % 1800 == 0
    ensures var r := Converge(start, base);
            r.converged ==> r.penalty == PenaltyFor(start, r.duration)
                            && Abs(base - r.penalty - r.duration) < Tolerance
    ensures var r := Converge(start, base);
            !r.converged ==> r.duration == base - r.penalty && r.evaluations == MaxRounds
    ensures base % 1800 == 0 ==>
              var r := Converge(start, base);
              r.duration == base - r.penalty
              && (r.converged ==> r.duration == base - PenaltyFor(start, r.duration))
    ensures base >= 0 ==>
              var r := Converge(start, base);
              base <= 2 * r.duration && 0 <= 2 * r.penalty <= base
  {
    IterateBounds(start, base, base, MaxRounds);
    IterateRelation(start, base, base, MaxRounds);
    if base % 1800 == 0 {
      IterateFixedPoint(start, base, base, MaxRounds);
    }
    if base >= 0 {
      IterateAtLeastHalfBase(start, base, base, MaxRounds);
    }
  }

  // ---------------------------------------------------------------------
  // Concrete duties (day 0 is the start date)

  /** Start 08:00, base 14 h: two hours of 08:00-10:00 cost 1 h, giving 13 h after two rounds. */
  lemma MorningStartExample()
    ensures Converge(8 * 3600, 14 * 3600) == Run(13 * 3600, 3600, true, 2)
  {
    var start := 8 * 3600;
    assert Day(start) == 0 && Day(start + 14 * 3600) == 0 && Day(start + 13 * 3600) == 0;
    assert PenaltyFrom(start, start + 14 * 3600, 1, 0) == 0;
    assert PenaltyFrom(start, start + 14 * 3600, 0, 0) == 3600;
    assert PenaltyFor(start, 14 * 3600) == 3600;
    assert PenaltyFrom(start, start + 13 * 3600, 1, 0) == 0;
    assert PenaltyFrom(start, start + 13 * 3600, 0, 0) == 3600;
    assert PenaltyFor(start, 13 * 3600) == 3600;
    assert Iterate(start, 14 * 3600, 13 * 3600, 9) == Run(13 * 3600, 3600, true, 1);
  }

  /** Start 03:00, base 12 h: seven hours of 03:00-10:00 cost 3 h 30 min, giving 8 h 30 min. */
  lemma NightStartExample()
    ensures Converge(3 * 3600, 12 * 3600) == Run(8 * 3600 + 1800, 3 * 3600 + 1800, true, 2)
  {
    var start := 3 * 3600;
    assert Day(start) == 0 && Day(start + 12 * 3600) == 0 && Day(start + 8 * 3600 + 1800) == 0;
    assert PenaltyFrom(start, start + 12 * 3600, 1, 0) == 0;
    assert PenaltyFrom(start, start + 12 * 3600, 0, 0) == 12600;
    assert PenaltyFor(start, 12 * 3600) == 12600;
    assert PenaltyFrom(start, start + 8 * 3600 + 1800, 1, 0) == 0;
    assert PenaltyFrom(start, start + 8 * 3600 + 1800, 0, 0) == 12600;
    assert PenaltyFor(start, 8 * 3600 + 1800) == 12600;
    assert Iterate(start, 12 * 3600, 8 * 3600 + 1800, 9) == Run(8 * 3600 + 1800, 12600, true, 1);
  }

  /** The penalties of the two candidates the 00:00 duty alternates between. */
  lemma MidnightCyclePenalties()
    ensures PenaltyFor(0, 9 * 3600) == 3 * 3600 + 1800
    ensures PenaltyFor(0, 8 * 3600 + 1800) == 3 * 3600
  {
    assert PenaltyFrom(0, 9 * 3600, 1, 0) == 0;
    assert PenaltyFrom(0, 9 * 3600, 0, 0) == 3 * 3600 + 1800;
    assert PenaltyFrom(0, 8 * 3600 + 1800, 1, 0) == 0;
    assert PenaltyFrom(0, 8 * 3600 + 1800, 0, 0) == 3 * 3600;
  }

  /** The penalties of the first two candidates of the 00:00 duty with a base of 12 h. */
  lemma MidnightEntryPenalties()
    ensures PenaltyFor(0, 12 * 3600) == 4 * 3600
    ensures PenaltyFor(0, 8 * 3600) == 3 * 3600
  {
    assert PenaltyFrom(0, 12 * 3600, 1, 0) == 0;
    assert PenaltyFrom(0, 12 * 3600, 0, 0) == 4 * 3600;
    assert PenaltyFrom(0, 8 * 3600, 1, 0) == 0;
    assert PenaltyFrom(0, 8 * 3600, 0, 0) == 3 * 3600;
  }

  /**
   * From 00:00 with a base of 12 h, a candidate of 9 h costs 3 h 30 and leads
   * to 8 h 30, which costs 3 h and leads back to 9 h: the candidates differ by
   * 30 minutes forever, and which of the two a run ends on depends on the
   * parity of the rounds left.
   */
  lemma {:induction false} MidnightOscillation(k: nat)
    requires k >= 1
    ensures Iterate(0, 12 * 3600, 8 * 3600 + 1800, k)
            == if k % 2 == 1 then Run(9 * 3600, 3 * 3600, false, k)
               else Run(8 * 3600 + 1800, 3 * 3600 + 1800, false, k)
    ensures Iterate(0, 12 * 3600, 9 * 3600, k)
            == if k % 2 == 1 then Run(8 * 3600 + 1800, 3 * 3600 + 1800, false, k)
               else Run(9 * 3600, 3 * 3600, false, k)
    decreases k
  {
    MidnightCyclePenalties();
    if k >= 2 {
      MidnightOscillation(k - 1);
    }
  }

  /**
   * Start 00:00, base 12 h (the C-98 Jornada Contínua Simples limit): the
   * iteration never settles and after ten rounds returns 9 h with a penalty
   * of 3 h, although a duty of 9 h from 00:00 itself costs 3 h 30.
   */
  lemma MidnightExhaustedExample()
    ensures Converge(0, 12 * 3600) == Run(9 * 3600, 3 * 3600, false, 10)
    ensures PenaltyFor(0, 9 * 3600) == 3 * 3600 + 1800
  {
    hide PenaltyFor;
    MidnightEntryPenalties();
    MidnightCyclePenalties();
    MidnightOscillation(8);
    var tail := Iterate(0, 12 * 3600, 9 * 3600, 8);
    assert tail == Run(9 * 3600, 3 * 3600, false, 8);
    assert Iterate(0, 12 * 3600, 8 * 3600, 9) == tail.(evaluations := 9);
    assert Iterate(0, 12 * 3600, 12 * 3600, 10) == Iterate(0, 12 * 3600, 8 * 3600, 9).(evaluations := 10);
  }
}
