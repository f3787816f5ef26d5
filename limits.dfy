/**
 * The regulatory limit table of the flight duty calculator: for each aircraft
 * type, duty type and crew configuration, the base duty duration in whole
 * hours, together with the crew configurations each aircraft offers.
 * A combination that is not in the table is an error, never a default.
 */
module Limits {

  /** The two aircraft types: C-105 Amazonas and C-98 Caravan. */
  datatype Aircraft = C105Amazonas | C98Caravan

  /** "Jornada Contínua" and "Jornada Máxima". */
  datatype DutyType = Continuous | Maximum

  /** "Simples", "Composta" and "Revezamento". */
  datatype Crew = Simple | Composite | Relay

  /** The only error of the core: the triple has no entry in the table. */
  datatype LimitError = InvalidParameterCombination

  datatype Result<+T> = Ok(value: T) | Err(error: LimitError)

  /** The crew configurations offered for an aircraft, in the order shown. */
  function CrewOptions(aircraft: Aircraft): seq<Crew>
  {
    match aircraft
    case C105Amazonas => [Simple, Composite, Relay]
    case C98Caravan => [Simple, Composite]
  }

  /** The nested limit table, in hours. The C-98 has no Relay entries. */
  const LimitTable: map<Aircraft, map<DutyType, map<Crew, nat>>> :=
    map[
      C105Amazonas := map[
        Continuous := map[Simple := 14, Composite := 16, Relay := 19],
        Maximum    := map[Simple := 16, Composite := 18, Relay := 22]
      ],
      C98Caravan := map[
        Continuous := map[Simple := 12, Composite := 14],
        Maximum    := map[Simple := 14, Composite := 14]
      ]
    ]

  /** Both aircraft and both duty types are keys; a crew is a key exactly when it is offered. */
  lemma TableKeysAreOptions(aircraft: Aircraft, duty: DutyType, crew: Crew)
    ensures aircraft in LimitTable && duty in LimitTable[aircraft]
    ensures crew in LimitTable[aircraft][duty] <==> crew in CrewOptions(aircraft)
  {
    match aircraft
    case C105Amazonas =>
      assert LimitTable[aircraft][duty].Keys == {Simple, Composite, Relay};
    case C98Caravan =>
      assert LimitTable[aircraft][duty].Keys == {Simple, Composite};
  }

  /**
   * Looks the triple up level by level; a key missing at any level is the
   * error the caller reports before stopping.
   */
  function BaseHours(aircraft: Aircraft, duty: DutyType, crew: Crew): (r: Result<nat>)
    ensures r.Ok? <==> crew in CrewOptions(aircraft)
    ensures r.Ok? ==> 12 <= r.value <= 22
    ensures r.Err? ==> r.error == InvalidParameterCombination
  {
    TableKeysAreOptions(aircraft, duty, crew);
    if aircraft in LimitTable && duty in LimitTable[aircraft] && crew in LimitTable[aircraft][duty]
    then Ok(LimitTable[aircraft][duty][crew])
    else Err(InvalidParameterCombination)
  }

  /**
   * The table grows with the duty type and the crew: for each offered crew,
   * Jornada Máxima allows at least as much as Jornada Contínua, and a larger
   * crew (Simples, Composta, Revezamento) never allows less than a smaller one.
   */
  lemma TableOrdering(aircraft: Aircraft, duty: DutyType)
    ensures forall crew :: crew in CrewOptions(aircraft) ==>
              BaseHours(aircraft, Continuous, crew).value <= BaseHours(aircraft, Maximum, crew).value
    ensures BaseHours(aircraft, duty, Simple).value <= BaseHours(aircraft, duty, Composite).value
    ensures aircraft == C105Amazonas ==>
              BaseHours(aircraft, duty, Composite).value <= BaseHours(aircraft, duty, Relay).value
  {
    TableValues();
  }

  /** The hour value of every entry of the table. */
  lemma TableValues()
    ensures BaseHours(C105Amazonas, Continuous, Simple) == Ok(14)
    ensures BaseHours(C105Amazonas, Continuous, Composite) == Ok(16)
    ensures BaseHours(C105Amazonas, Continuous, Relay) == Ok(19)
    ensures BaseHours(C105Amazonas, Maximum, Simple) == Ok(16)
    ensures BaseHours(C105Amazonas, Maximum, Composite) == Ok(18)
    ensures BaseHours(C105Amazonas, Maximum, Relay) == Ok(22)
    ensures BaseHours(C98Caravan, Continuous, Simple) == Ok(12)
    ensures BaseHours(C98Caravan, Continuous, Composite) == Ok(14)
    ensures BaseHours(C98Caravan, Maximum, Simple) == Ok(14)
    ensures BaseHours(C98Caravan, Maximum, Composite) == Ok(14)
  {
  }
}
