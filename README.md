# Flight duty limit calculator: a Dafny model

This project models the core of a flight duty limit calculator ("Calculadora de
Limite de Jornada de Voo"). Given an aircraft (C-105 Amazonas or C-98 Caravan),
a duty type (Jornada Contínua or Jornada Máxima) and a crew configuration
(Simples, Composta or Revezamento), the calculator looks up a base duty duration
in whole hours. It then shortens that duration by a night penalty. Every
complete hour of the duty that falls inside the daily window [02:00, 10:00)
costs 30 minutes. The penalty depends on the end of the duty, and the end
depends on the penalty. The calculator therefore iterates
`candidate := base - penalty(start, candidate)` until two successive candidates
are within one minute of each other, for at most ten rounds.

Representation:

- Timestamps are naive local times, written as integer seconds since midnight
  of a reference day 0. The calendar day of `t` is `t / 86400`, which is floor
  division because the divisor is positive.
- Durations are integer seconds. They may be negative, because the source never
  clamps them.
- `datetime.combine(d, time(2, 0))` is `d * 86400 + 7200`, and
  `time(10, 0)` is `d * 86400 + 36000`.

Modules:

- `Limits` (`limits.dfy`) holds the limit table as a nested map, the crew options
  of each aircraft, and the lookup. A missing key gives
  `Err(InvalidParameterCombination)`.
- `NightPenalty` (`night_penalty.dfy`) holds the per-day overlap, the penalty as a
  function (`PenaltyFor`), and the day-by-day scan as a method with a loop
  (`CalculatePenalty`). Its lemmas prove quantisation, the half-duration bound,
  the zero cases, that the scan range misses nothing, and monotonicity.
- `Convergence` (`convergence.dfy`) holds the iteration as a function
  (`Iterate`, `Converge`) and as a method with a bounded loop and an early exit
  (`ConvergeDuty`). Its lemmas prove the bounds, the relation between the
  returned values, the fixed point, the two worked scenarios (08:00 with 14 h,
  03:00 with 12 h), and a run from 00:00 that never settles.
- `Calculator` (`calculator.dfy`) holds what the calculate button does: look up
  the base hours, stop on the error, otherwise converge and derive both end
  times.

On convergence the loop breaks before `jornada_final = nova_jornada`
(alpha.py:84-86), so it returns the previous candidate, not `nova_jornada`.
`Iterate` does the same. For a base that is a whole number of half hours,
which holds for every table entry, `IterateFixedPoint` proves the two are equal.

The code never clamps the result (alpha.py:87). For a non-negative base it
cannot go negative. Each penalty is at most half its candidate
(`PenaltyAtMostHalfDuration`), so the result is always at least half the base
(`IterateAtLeastHalfBase`).

A run that uses all ten rounds without settling returns the last candidate
with the penalty of the candidate before it, and the two need not match.
From 00:00 with a base of 12 h the candidates alternate between 8 h 30 and 9 h
forever. The run returns 9 h with a penalty of 3 h, although a 9 h duty from
00:00 costs 3 h 30 (`MidnightExhaustedExample`). The model keeps this
behaviour as written.

## Model

| member | source | states |
|---|---|---|
| `Limits.BaseHours` | alpha.py:94-97 | The lookup succeeds exactly when the crew is one the aircraft offers. A success is between 12 and 22 hours. A failure is `InvalidParameterCombination`, with no default value. |
| `Limits.TableKeysAreOptions` | alpha.py:26-49 | Both aircraft and both duty types are keys of the table. A crew is a key under an aircraft and duty type exactly when the aircraft offers that crew. |
| `Limits.TableOrdering` | alpha.py:26-49 | For every offered crew, Jornada Máxima allows at least as many hours as Jornada Contínua. Within a duty type, Composta allows at least Simples, and on the C-105 Revezamento allows at least Composta. |
| `Limits.TableValues` | alpha.py:26-49 | The hour value of each of the ten entries, for example C-105/Máxima/Revezamento = 22 and C-98/Contínua/Simples = 12. |
| `NightPenalty.Overlap` | alpha.py:61-69 | The intersection of the duty with a day's window is between 0 and 8 hours long. It is non-empty only when the duty starts before the window closes and ends after it opens. |
| `NightPenalty.PenaltyFrom` | alpha.py:60-73 | The summed penalty of a range of days is non-negative and a whole multiple of 30 minutes. |
| `NightPenalty.CalculatePenalty` | alpha.py:52-75 | The day-by-day scan from the day before the start through the day of the end returns exactly `PenaltyFor(start, duration)`. The result is a non-negative multiple of 30 minutes. |
| `NightPenalty.DayPenaltyAtMostHalfOverlap` | alpha.py:68-71 | Charging 30 minutes per complete hour never charges more than half of a day's overlap. |
| `NightPenalty.PenaltyFromAtMostHalfSpan` | alpha.py:60-73 | The daily windows are disjoint, so twice the penalty of days d onward is at most the part of the duty from day d's window on. |
| `NightPenalty.PenaltyAtMostHalfDuration` | alpha.py:52-75 | Twice the penalty is at most the duration. The penalty is zero for any non-positive duration. |
| `NightPenalty.PenaltyQuantised` | alpha.py:70-71 | The penalty is a non-negative whole multiple of 1800 seconds. |
| `NightPenalty.PenaltyFromZeroIff` | alpha.py:60-73 | A range of days contributes nothing exactly when no day in it overlaps the duty by a full hour. |
| `NightPenalty.PenaltyZeroIff` | alpha.py:52-75 | The penalty is zero if and only if no scanned day's window overlaps the duty by at least 3600 seconds. |
| `NightPenalty.OutsideScanNoOverlap` | alpha.py:56-58 | Days outside the scanned range, from the day before the start through the day of the end, have no overlap. Together with the scan's own range, every day whose window meets the duty is visited. |
| `NightPenalty.DayBeforeStartAddsNothing` | alpha.py:56-62 | The window never crosses midnight, so the extra day the scan visits before the start has no overlap and adds no penalty. |
| `NightPenalty.DayPenaltyStep` | alpha.py:68-71 | An overlap shorter than an hour costs nothing. An overlap of one to two hours costs exactly 30 minutes. |
| `NightPenalty.HourBoundaryExamples` | alpha.py:65-71 | From 02:00, 59 minutes cost 0 and 60 minutes cost 30 minutes. From 10:00 the window is touched only at an instant, so the cost is 0. |
| `NightPenalty.DayPenaltyMonotone` | alpha.py:65-71 | A later end never lowers one day's penalty. |
| `NightPenalty.PenaltyFromMonotoneEnd` | alpha.py:53-73 | A later end never lowers the penalty of a fixed range of days. |
| `NightPenalty.PenaltyFromMonotoneLast` | alpha.py:58-73 | Scanning more days never lowers the penalty. |
| `NightPenalty.PenaltyMonotone` | alpha.py:52-75 | For a fixed start, the penalty is non-decreasing in the duration. |
| `Convergence.ConvergeDuty` | alpha.py:79-87 | The bounded loop with its early `break` returns the duration and penalty of `Converge(start, base)`. |
| `Convergence.IterateBounds` | alpha.py:80-87 | A run evaluates between 1 and the allowed number of penalties. Its duration never exceeds the base, and its penalty is a non-negative multiple of 30 minutes. |
| `Convergence.IterateRelation` | alpha.py:81-87 | A converged run returns a candidate with that candidate's own penalty, and `abs(base - penalty - duration) < 60`. A run that is not converged used every round and returns exactly `base - penalty`. |
| `Convergence.IterateFixedPoint` | alpha.py:82-86 | When the base is a multiple of 30 minutes, the duration is always `base - penalty`. A converged result is a true fixed point, `d = base - PenaltyFor(start, d)`. |
| `Convergence.IterateAtLeastHalfBase` | alpha.py:80-87 | For a non-negative base, every returned duration is at least half the base and every penalty at most half, so the result is never negative. |
| `Convergence.ConvergeProperties` | alpha.py:79-87 | The iteration from the base combines the properties above: at most 10 evaluations, duration at most the base, the converged/exhausted relation, the fixed point for whole-half-hour bases, and the half-base lower bound. |
| `Convergence.MorningStartExample` | alpha.py:52-87 | A start at 08:00 with a base of 14 h converges in two rounds to 13 h with a 1 h penalty. |
| `Convergence.NightStartExample` | alpha.py:52-87 | A start at 03:00 with a base of 12 h converges in two rounds to 8 h 30 min with a 3 h 30 min penalty. |
| `Convergence.MidnightOscillation` | alpha.py:79-87 | From 00:00 with a base of 12 h, the candidates 8 h 30 and 9 h lead to each other, so no round converges. The returned candidate depends on the parity of the rounds left. |
| `Convergence.MidnightExhaustedExample` | alpha.py:52-87 | From 00:00 with a base of 12 h, all ten rounds run without converging. The run returns 9 h with a 3 h penalty, while the penalty of 9 h from 00:00 is 3 h 30. |
| `Calculator.CalculateLimit` | alpha.py:91-102 | A crew the aircraft does not offer gives the error and nothing else. Otherwise the base is the table's hours, and the final duration and penalty are those of the iteration. Base minus penalty equals the final duration, which lies in (0, base]. The penalised end lies between the start and the base end. |

## Left out

- The Streamlit input widgets, messages and `st.stop()` are left out. The model
  returns the error value instead of rendering it and halting.
- The matplotlib timeline plot is left out. It only draws the windows and
  computes nothing.
- Real `datetime` semantics are left out: time zones, daylight saving, date
  formatting, microseconds and the float returned by `total_seconds()`.
  Timestamps are whole seconds, for which that float division is exact.
- The limits of the Python `datetime` range (years 1 to 9999) are left out. The
  source raises an overflow error at those limits, while the model's integers
  are unbounded.
- Aircraft, duty types and crews are enumerations rather than the source's
  strings. Only the crew key can therefore be missing from the table. An
  unknown aircraft or duty-type string cannot be represented, and the source's
  selection widgets never produce one.
- The penalty variable before the first round is left out. It is unbound in the
  source, and `ConvergeDuty` sets it to 0. It is always overwritten, because
  the loop runs at least once.
