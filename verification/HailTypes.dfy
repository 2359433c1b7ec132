/**
 The vocabulary of the dispatch protocol: hail and taxi statuses, roles, the
 table of user transitions, the taxi status each of them sets, and the table of
 timeouts.
 */
module HailTypes {
  import opened Wrappers

  type UserId = nat
  type TaxiId = nat
  type HailId = nat

  datatype HailStatus =
    | Received
    | SentToOperator
    | ReceivedByOperator
    | ReceivedByTaxi
    | AcceptedByTaxi
    | AcceptedByCustomer
    | CustomerOnBoard
    | Failure
    | DeclinedByTaxi
    | IncidentTaxi
    | TimeoutTaxi
    | DeclinedByCustomer
    | IncidentCustomer
    | TimeoutCustomer
    | TimeoutAcceptedByCustomer
    | Finished

  datatype TaxiStatus = Free | Occupied | Off | Answering | Oncoming

  datatype Role = Admin | Moteur | Operateur

  datatype User = User(id: UserId, roles: set<Role>)

  /** The statuses from which a hail never moves again. */
  predicate Terminal(s: HailStatus) {
    match s
    case Received | SentToOperator | ReceivedByOperator | ReceivedByTaxi => false
    case AcceptedByTaxi | AcceptedByCustomer | CustomerOnBoard => false
    case _ => true
  }

  /** The statuses an operator may give to a taxi. */
  predicate Updatable(t: TaxiStatus) {
    t.Free? || t.Occupied? || t.Off?
  }

  predicate HasRole(user: Option<User>, role: Role) {
    user.Some? && role in user.value.roles
  }

  /**
   The role a user needs to move a hail, or None for a move that no user may
   make. Every status that is not terminal is left by some such move.
   */
  function RequiredRole(from: HailStatus, to: HailStatus): Option<Role> {
    match (from, to)
    case (Received, DeclinedByCustomer) => Some(Moteur)
    case (SentToOperator, DeclinedByCustomer) => Some(Moteur)
    case (ReceivedByOperator, DeclinedByCustomer) => Some(Moteur)
    case (ReceivedByOperator, ReceivedByTaxi) => Some(Operateur)
    case (ReceivedByTaxi, AcceptedByTaxi) => Some(Operateur)
    case (ReceivedByTaxi, DeclinedByTaxi) => Some(Operateur)
    case (ReceivedByTaxi, IncidentTaxi) => Some(Operateur)
    case (ReceivedByTaxi, IncidentCustomer) => Some(Moteur)
    case (ReceivedByTaxi, DeclinedByCustomer) => Some(Moteur)
    case (AcceptedByTaxi, IncidentCustomer) => Some(Moteur)
    case (AcceptedByTaxi, DeclinedByCustomer) => Some(Moteur)
    case (AcceptedByTaxi, AcceptedByCustomer) => Some(Moteur)
    case (AcceptedByTaxi, IncidentTaxi) => Some(Operateur)
    case (AcceptedByCustomer, CustomerOnBoard) => Some(Operateur)
    case (AcceptedByCustomer, IncidentCustomer) => Some(Moteur)
    case (AcceptedByCustomer, IncidentTaxi) => Some(Operateur)
    case (CustomerOnBoard, IncidentCustomer) => Some(Moteur)
    case (CustomerOnBoard, IncidentTaxi) => Some(Operateur)
    case (CustomerOnBoard, Finished) => Some(Operateur)
    case _ => None
  }

  /** The taxi status set by a user transition, where it sets one. */
  function TaxiStatusSetBy(to: HailStatus): Option<TaxiStatus> {
    match to
    case AcceptedByCustomer => Some(Oncoming)
    case CustomerOnBoard => Some(Occupied)
    case DeclinedByCustomer | DeclinedByTaxi | IncidentTaxi | IncidentCustomer | Finished => Some(Free)
    case _ => None
  }

  datatype TimeoutSpec = TimeoutSpec(hail: HailStatus, taxi: TaxiStatus)

  /** What happens to the hail and to the taxi when nobody answers in time. */
  function TimeoutFor(s: HailStatus): Option<TimeoutSpec> {
    match s
    case ReceivedByOperator => Some(TimeoutSpec(Failure, Free))
    case ReceivedByTaxi => Some(TimeoutSpec(TimeoutTaxi, Occupied))
    case AcceptedByTaxi => Some(TimeoutSpec(TimeoutCustomer, Free))
    case AcceptedByCustomer => Some(TimeoutSpec(TimeoutAcceptedByCustomer, Occupied))
    case CustomerOnBoard => Some(TimeoutSpec(TimeoutTaxi, Off))
    case _ => None
  }

  /** The statuses after which the ride is offered to another taxi. */
  predicate Reassignable(s: HailStatus) {
    s.DeclinedByTaxi? || s.TimeoutTaxi?
  }

  /** The taxi status that a hail which is not over stands for. */
  function Engaged(s: HailStatus): TaxiStatus {
    match s
    case AcceptedByCustomer => Oncoming
    case CustomerOnBoard => Occupied
    case _ => Answering
  }

  /** The moves the operator request makes on its own. */
  predicate SendEdge(from: HailStatus, to: HailStatus) {
    from.Received? && (to.Failure? || to.ReceivedByOperator? || to.ReceivedByTaxi?)
  }

  predicate TimeoutEdge(from: HailStatus, to: HailStatus) {
    TimeoutFor(from).Some? && TimeoutFor(from).value.hail == to
  }

  predicate Edge(from: HailStatus, to: HailStatus) {
    RequiredRole(from, to).Some? || TimeoutEdge(from, to) || SendEdge(from, to)
  }

  /** How far a hail has come. */
  function Rank(s: HailStatus): nat {
    match s
    case Received | SentToOperator => 0
    case ReceivedByOperator => 1
    case ReceivedByTaxi => 2
    case AcceptedByTaxi => 3
    case AcceptedByCustomer => 4
    case CustomerOnBoard => 5
    case _ => 6
  }

  /** A taxi status that agrees with a hail having just reached the status s. */
  predicate Fits(s: HailStatus, t: TaxiStatus) {
    if Terminal(s) then Updatable(t) else t == Engaged(s)
  }
}
