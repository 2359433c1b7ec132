/**
 One hail and the description of its taxi: how a status changes, how a change is
 logged, and which changes a user may make.
 */
module HailMachine {
  import opened Wrappers
  import opened HailTypes

  /** A customer's search for a taxi: the three columns that tie hails together. */
  datatype Session = Session(moteur: UserId, customer: nat, session: nat)

  datatype Reason =
    | NoReason
    | TimedOut
    | Handoff
    | TooLate
    | OperatorFailed
    | ReassignedAfter(status: HailStatus)

  /** One element of the transition log. An empty event stands for an absent key. */
  datatype Entry = Entry(from: Option<HailStatus>, to: HailStatus, user: Option<UserId>, reason: Reason, event: string)

  datatype Origin = Requested | ReassignedFrom(source: HailId)

  /** A row of the table of hails. The origin is what the activity log records. */
  datatype HailRow = HailRow(
    taxi: TaxiId,
    session: Session,
    operateur: UserId,
    origin: Origin,
    addedAt: real,
    status: HailStatus,
    phone: string,
    log: seq<Entry>)

  datatype TransitionError = EventReused | HailOver | ImpossibleTransition | RoleMissing(role: Role) | PhoneMissing

  datatype Applied = Applied(row: HailRow, taxi: TaxiStatus, changed: bool, replayed: bool)

  /** A row as it is inserted: the first entry leads from no status to received. */
  function NewRow(taxi: TaxiId, session: Session, operateur: UserId, origin: Origin, addedAt: real,
                  user: Option<UserId>, reason: Reason): HailRow
  {
    HailRow(taxi, session, operateur, origin, addedAt, Received, "", [Entry(None, Received, user, reason, "")])
  }

  function Changed(row: HailRow, to: HailStatus, user: Option<UserId>, reason: Reason, event: string): HailRow {
    row.(status := to, log := row.log + [Entry(Some(row.status), to, user, reason, event)])
  }

  function IdOf(user: Option<User>): Option<UserId> {
    match user
    case None => None
    case Some(u) => Some(u.id)
  }

  /** The first entry that carries the event id. */
  function ProcessedEvent(log: seq<Entry>, event: string): (r: Option<Entry>)
    ensures r.Some? ==> event != "" && r.value in log && r.value.event == event
    ensures r.None? && event != "" ==> forall e | e in log :: e.event != event
  {
    if event == "" || log == [] then None
    else if log[0].event == event then Some(log[0])
    else ProcessedEvent(log[1..], event)
  }

  /** What a user's request to move the hail amounts to. */
  function Transition(row: HailRow, taxi: TaxiStatus, to: HailStatus, user: Option<User>, phone: string,
                      event: string): Result<Applied, TransitionError>
  {
    var previous := ProcessedEvent(row.log, event);
    if previous.Some? then
      if previous.value.to != to || previous.value.user != IdOf(user) then Err(EventReused)
      else Ok(Applied(row, taxi, false, true))
    else if row.status == to then
      Ok(Applied(row, taxi, false, false))
    else if Terminal(row.status) then
      Err(HailOver)
    else
      var role := RequiredRole(row.status, to);
      if role.None? then Err(ImpossibleTransition)
      else if !HasRole(user, role.value) && !HasRole(user, Admin) then Err(RoleMissing(role.value))
      else if to.AcceptedByTaxi? && phone == "" && row.phone == "" then Err(PhoneMissing)
      else
        var reached := if to.AcceptedByTaxi? && phone != "" then row.(phone := phone) else row;
        var taxi' := if TaxiStatusSetBy(to).Some? then TaxiStatusSetBy(to).value else taxi;
        Ok(Applied(Changed(reached, to, IdOf(user), NoReason, event), taxi', true, false))
  }

  /** An entry that follows one of the three kinds of moves. */
  predicate LawfulEntry(e: Entry) {
    && e.from.Some?
    && (if e.user.Some? then RequiredRole(e.from.value, e.to).Some?
        else (TimeoutEdge(e.from.value, e.to) && e.reason.TimedOut?) || SendEdge(e.from.value, e.to))
  }

  /** The entry at k starts where the one before it ended. */
  predicate Linked(log: seq<Entry>, k: nat)
    requires 0 < k < |log|
  {
    log[k].from == Some(log[k - 1].to) && LawfulEntry(log[k])
  }

  /** No earlier entry carries the event id of the entry at k. */
  predicate NewEvent(log: seq<Entry>, k: nat)
    requires k < |log|
  {
    log[k].event == "" || forall e | e in log[..k] :: e.event != log[k].event
  }

  /** The log tells, without a gap, how the hail came to its present status. */
  ghost predicate Faithful(row: HailRow) {
    && row.log != []
    && row.log[0].from == None && row.log[0].to == Received && row.log[0].event == ""
    && row.log[|row.log| - 1].to == row.status
    && (forall k | 0 < k < |row.log| :: Linked(row.log, k))
    && (forall k | 0 <= k < |row.log| :: NewEvent(row.log, k))
  }

  ghost predicate Visited(row: HailRow, status: HailStatus) {
    exists k | 0 <= k < |row.log| :: row.log[k].to == status
  }

  /** Every move leads strictly forward, and none leads to sent_to_operator. */
  lemma {:induction false} EdgesClimb(from: HailStatus, to: HailStatus)
    requires Edge(from, to)
    ensures Rank(from) < Rank(to)
    ensures !Terminal(from)
    ensures to != SentToOperator && to != Received
    ensures Reassignable(to) ==> from.ReceivedByTaxi? || from.CustomerOnBoard?
  {
  }

  /** The statuses of a faithful log climb, so none is entered twice. */
  lemma {:induction false} LogClimbs(row: HailRow, j: nat, k: nat)
    requires Faithful(row) && j < k < |row.log|
    ensures Rank(row.log[j].to) + (k - j) <= Rank(row.log[k].to)
    decreases k
  {
    assert Linked(row.log, k);
    EdgesClimb(row.log[k - 1].to, row.log[k].to);
    if j < k - 1 {
      LogClimbs(row, j, k - 1);
    }
  }

  /** A hail's history has at most seven entries and never mentions sent_to_operator. */
  lemma {:induction false} FaithfulLogIsShort(row: HailRow)
    requires Faithful(row)
    ensures |row.log| <= 7
    ensures row.status != SentToOperator
    ensures forall j, k | 0 <= j < k < |row.log| :: row.log[j].to != row.log[k].to
    ensures Terminal(row.status) ==> forall k | 0 <= k < |row.log| - 1 :: !Terminal(row.log[k].to)
  {
    var last := |row.log| - 1;
    if last > 0 {
      LogClimbs(row, 0, last);
      assert Linked(row.log, last);
      EdgesClimb(row.log[last - 1].to, row.log[last].to);
    }
    forall j, k | 0 <= j < k < |row.log|
      ensures row.log[j].to != row.log[k].to && Rank(row.log[j].to) < Rank(row.log[k].to)
    {
      LogClimbs(row, j, k);
    }
  }

  /** One more lawful entry with a new event id keeps the log faithful. */
  lemma {:induction false} ChangedIsFaithful(row: HailRow, phone: string, to: HailStatus, user: Option<UserId>,
                                             reason: Reason, event: string)
    requires Faithful(row)
    requires LawfulEntry(Entry(Some(row.status), to, user, reason, event))
    requires forall e | e in row.log :: event != "" ==> e.event != event
    ensures Faithful(Changed(row.(phone := phone), to, user, reason, event))
  {
    var log, n := Changed(row, to, user, reason, event).log, |row.log|;
    forall k | 0 < k <= n
      ensures Linked(log, k)
    {
      assert k < n ==> Linked(row.log, k);
    }
    forall k | 0 <= k <= n
      ensures NewEvent(log, k)
    {
      assert log[..k] == row.log[..k];
      assert k < n ==> NewEvent(row.log, k);
    }
  }

  /** An entry with an event id that the log does not hold yet, lawful after the present status. */
  lemma {:induction false} MovedRow(row: HailRow, taxi: TaxiStatus, to: HailStatus, user: Option<User>,
                                    phone: string, event: string)
    requires Transition(row, taxi, to, user, phone, event).Ok?
    requires Transition(row, taxi, to, user, phone, event).value.changed
    ensures
      var a := Transition(row, taxi, to, user, phone, event).value;
      && !Terminal(row.status) && RequiredRole(row.status, to).Some?
      && user.Some?
      && (RequiredRole(row.status, to).value in user.value.roles || Admin in user.value.roles)
      && a.row == Changed(row.(phone := a.row.phone), to, IdOf(user), NoReason, event)
      && (to.AcceptedByTaxi? ==> a.row.phone != "")
      && (forall e | e in row.log :: event != "" ==> e.event != event)
      && a.taxi == (if TaxiStatusSetBy(to).Some? then TaxiStatusSetBy(to).value else taxi)
  {
  }

  lemma {:induction false} MovedTaxiFits(from: HailStatus, to: HailStatus, taxi: TaxiStatus)
    requires RequiredRole(from, to).Some? && taxi == Engaged(from)
    ensures Fits(to, if TaxiStatusSetBy(to).Some? then TaxiStatusSetBy(to).value else taxi)
  {
  }

  /** What a successful request does: a single lawful step, or nothing at all. */
  lemma {:induction false} TransitionStep(row: HailRow, taxi: TaxiStatus, to: HailStatus, user: Option<User>,
                                          phone: string, event: string)
    requires Faithful(row)
    requires !Terminal(row.status) ==> taxi == Engaged(row.status)
    requires Transition(row, taxi, to, user, phone, event).Ok?
    ensures
      var a := Transition(row, taxi, to, user, phone, event).value;
      if a.changed then
        && !Terminal(row.status) && RequiredRole(row.status, to).Some?
        && user.Some?
        && (RequiredRole(row.status, to).value in user.value.roles || Admin in user.value.roles)
        && a.row == Changed(row.(phone := a.row.phone), to, IdOf(user), NoReason, event)
        && Faithful(a.row) && Fits(to, a.taxi)
        && (to.AcceptedByTaxi? ==> a.row.phone != "")
      else
        a.row == row && a.taxi == taxi && Visited(row, to)
  {
    var a := Transition(row, taxi, to, user, phone, event).value;
    if a.changed {
      MovedRow(row, taxi, to, user, phone, event);
      MovedTaxiFits(row.status, to, taxi);
      ChangedIsFaithful(row, a.row.phone, to, IdOf(user), NoReason, event);
    } else if a.replayed {
      var e := ProcessedEvent(row.log, event).value;
      assert exists k | 0 <= k < |row.log| :: row.log[k] == e;
    } else {
      assert row.log[|row.log| - 1].to == to;
    }
  }

  lemma {:induction false} NoWayBack(from: HailStatus, to: HailStatus)
    requires Rank(to) < Rank(from)
    ensures RequiredRole(from, to).None?
  {
  }

  /** A status once entered is never entered again, whoever asks and however. */
  lemma {:induction false} VisitedStatusIsInert(row: HailRow, taxi: TaxiStatus, to: HailStatus, user: Option<User>,
                                                phone: string, event: string)
    requires Faithful(row) && Visited(row, to)
    ensures
      var r := Transition(row, taxi, to, user, phone, event);
      r.Err? || (!r.value.changed && r.value.row == row && r.value.taxi == taxi)
  {
    var k :| 0 <= k < |row.log| && row.log[k].to == to;
    var last := |row.log| - 1;
    if k < last {
      LogClimbs(row, k, last);
      NoWayBack(row.status, to);
    }
  }

  /** The hail as the session holds it between its load and the commit. */
  class Hail {
    const taxi: TaxiId
    const session: Session
    const operateur: UserId
    const origin: Origin
    const addedAt: real
    var status: HailStatus
    var phone: string
    var log: seq<Entry>

    ghost function Row(): HailRow
      reads this
    {
      HailRow(taxi, session, operateur, origin, addedAt, status, phone, log)
    }

    constructor Load(row: HailRow)
      ensures Row() == row
    {
      taxi, session, operateur, origin, addedAt := row.taxi, row.session, row.operateur, row.origin, row.addedAt;
      status, phone, log := row.status, row.phone, row.log;
    }

    method Store() returns (row: HailRow)
      ensures row == Row()
    {
      row := HailRow(taxi, session, operateur, origin, addedAt, status, phone, log);
    }

    method ChangeStatus(to: HailStatus, user: Option<UserId>, reason: Reason, event: string)
      modifies this
      ensures Row() == Changed(old(Row()), to, user, reason, event)
    {
      var oldStatus := status;
      status := to;
      log := log + [Entry(Some(oldStatus), to, user, reason, event)];
    }
  }

  /** The live part of a vehicle description. */
  class VehicleDescription {
    var status: TaxiStatus

    constructor Load(status: TaxiStatus)
      ensures this.status == status
    {
      this.status := status;
    }
  }

  /** apply_transition, statement by statement on the loaded objects. */
  method ApplyTransition(hail: Hail, description: VehicleDescription, to: HailStatus, user: Option<User>,
                         phone: string, event: string)
    returns (r: Result<(bool, bool), TransitionError>)
    modifies hail, description
    ensures
      var spec := Transition(old(hail.Row()), old(description.status), to, user, phone, event);
      match spec
      case Err(e) => r == Err(e) && hail.Row() == old(hail.Row()) && description.status == old(description.status)
      case Ok(a) => r == Ok((a.changed, a.replayed)) && hail.Row() == a.row && description.status == a.taxi
  {
    var previous := ProcessedEvent(hail.log, event);
    if previous.Some? {
      if previous.value.to != to || previous.value.user != IdOf(user) {
        return Err(EventReused);
      }
      return Ok((false, true));
    }
    if hail.status == to {
      return Ok((false, false));
    }
    if Terminal(hail.status) {
      return Err(HailOver);
    }
    var role := RequiredRole(hail.status, to);
    if role.None? {
      return Err(ImpossibleTransition);
    }
    if !HasRole(user, role.value) && !HasRole(user, Admin) {
      return Err(RoleMissing(role.value));
    }
    if to.AcceptedByTaxi? {
      if phone != "" {
        hail.phone := phone;
      } else if hail.phone == "" {
        return Err(PhoneMissing);
      }
    }
    hail.ChangeStatus(to, IdOf(user), NoReason, event);
    var newTaxiStatus := TaxiStatusSetBy(to);
    if newTaxiStatus.Some? {
      description.status := newTaxiStatus.value;
    }
    r := Ok((true, false));
  }
}
