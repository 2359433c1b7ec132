/** The service, the customers and the requests that the runs of the dispatch protocol are about. */
module DispatchScenario {
  import opened Wrappers
  import opened HailTypes
  import opened HailMachine
  import opened Dispatch

  /** A service with so many candidates for each search, and with these internal operators. */
  function Limited(limit: nat, internal: set<UserId>, column: Json -> Option<string>): Config {
    Config(limit, 10, 180, internal, column)
  }

  const NO_NUMBERS: Json -> Option<string> := _ => None

  /** One operator, with one free taxi. */
  const QUIET := State([], map[7 := Description(1, Free)], [])

  /** Three taxis, of two operators. */
  const THREE_TAXIS: map<TaxiId, Description> :=
    map[7 := Description(1, Free), 8 := Description(5, Free), 9 := Description(1, Free)]

  const OPERATOR := User(1, {Operateur})
  const OTHER_OPERATOR := User(5, {Operateur})
  const CLIENT := User(2, {Moteur})

  /** A service whose operators are all asked over the network. */
  const NETWORKED := Limited(20, {}, NO_NUMBERS)

  /** A service that hands the operators' hails over at once, and offers a ride to two taxis at most. */
  const INTERNAL := Limited(2, {OPERATOR.id, OTHER_OPERATOR.id}, NO_NUMBERS)

  /** A customer of the client asks for a taxi. */
  function Ask(customer: nat, taxi: TaxiId): Action {
    Create(CreateRequest(CLIENT, customer, 0, taxi, 100.0, false, Some(90), true, true))
  }

  function OperatorOf(taxi: TaxiId): UserId {
    if taxi == 8 then OTHER_OPERATOR.id else OPERATOR.id
  }

  function Asked(customer: nat, taxi: TaxiId): HailRow {
    NewRow(taxi, Session(CLIENT.id, customer, 0), OperatorOf(taxi), Requested, 100.0, Some(CLIENT.id), NoReason)
  }

  /** A request that names a status and nothing else. */
  function To(status: HailStatus): HailRequest {
    HailRequest(Some(status), "", "", NoExtra)
  }
}
