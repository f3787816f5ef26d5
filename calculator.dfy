/**
 * The calculation the user triggers: resolve the base hours from the limit
 * table, stop with the error if the combination is missing, otherwise run
 * the convergence engine and derive the base and penalised end times.
 */
module Calculator {
  import opened Limits
  import opened Convergence

  /** Everything the calculation reports; times in seconds. */
  datatype DutyLimit = DutyLimit(
    baseHours: nat,
    baseDuration: int,
    finalDuration: int,
    penalty: int,
    baseEnd: int,
    finalEnd: int)

  method CalculateLimit(aircraft: Aircraft, duty: DutyType, crew: Crew, start: int)
    returns (r: Result<DutyLimit>)
    ensures r.Err? <==> crew !in CrewOptions(aircraft)
    ensures r.Err? ==> r.error == InvalidParameterCombination
    ensures r.Ok? ==>
              && BaseHours(aircraft, duty, crew) == Ok(r.value.baseHours)
              && r.value.baseDuration == r.value.baseHours * 3600
              && r.value.finalDuration == Converge(start, r.value.baseDuration).duration
              && r.value.penalty == Converge(start, r.value.baseDuration).penalty
    ensures r.Ok? ==>
              && r.value.baseEnd == start + r.value.baseDuration
              && r.value.finalEnd == start + r.value.finalDuration
              && r.value.baseDuration - r.value.penalty == r.value.finalDuration
              && 0 < r.value.finalDuration <= r.value.baseDuration
              && r.value.penalty % 1800 == 0
              && start <= r.value.finalEnd <= r.value.baseEnd
  {
    var hours := BaseHours(aircraft, duty, crew);
    if hours.Err? {
      return Err(hours.error);
    }
    var base := hours.value * 3600;
    assert base % 1800 == 0 && base > 0;
    var finalDuration, penalty := ConvergeDuty(start, base);
    ConvergeProperties(start, base);
    r := Ok(DutyLimit(hours.value, base, finalDuration, penalty, start + base, start + finalDuration));
  }
}
