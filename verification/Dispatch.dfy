/**
 The dispatch protocol as a state machine: the committed rows, the pending
 background jobs, and one function for each request or job that commits.
 */
module Dispatch {
  import opened Wrappers
  import opened HailTypes
  import opened HailMachine

  datatype Job =
    | Send(hail: HailId)
    | Timer(hail: HailId, initial: HailStatus, target: HailStatus, taxi: TaxiStatus)
      // The call that follows the commit of a refusal or of an unanswered request.
    | Reassign(hail: HailId)
      // That call once it has chosen a taxi, until it inserts its hail.
    | Place(hail: HailId, choice: TaxiId, now: real)

  /** A taxi with its one description: the operator that registered it, and its status. */
  datatype Description = Description(operateur: UserId, status: TaxiStatus)

  /** Committed rows and pending jobs. A hail's id is its index; jobs may run in any order. */
  datatype State = State(hails: seq<HailRow>, taxis: map<TaxiId, Description>, jobs: seq<Job>)

  datatype Config = Config(
    candidateLimit: nat,
    sendMaxDelay: int,
    gpsFreshness: int,
    internalOperators: set<UserId>,
    column: Json -> Option<string>)

  /** A decoded JSON value. */
  datatype Json =
    | JNull
    | JBool(b: bool)
    | JNumber(literal: string)
    | JString(s: string)
    | JArray(items: seq<Json>)
    | JObject(fields: map<string, Json>)

  /**
   What an answer holds. Unhandled is text whose decoding, or whose copy for the
   log, raises something else than the decoder's error for malformed text: an
   integer has too many digits, or brackets are nested too deeply.
   */
  datatype Body = NotJson | Unhandled | Decoded(json: Json)

  /** What comes of the request to an operator; Uncaught is any exception that the task lets pass. */
  datatype Reply = Unreachable | Uncaught | Answered(code: int, body: Body)

  datatype PhoneField = Absent | Phone(number: string) | Raises

  /**
   Reads data[0].taxi_phone_number in an operator's reply. A body that is no
   object has no number; a body whose data cannot be measured, indexed or
   searched raises, and so does a value that the text column refuses; what the
   column makes of the others is its own affair.
   */
  function PhoneIn(column: Json -> Option<string>, body: Json): PhoneField {
    if !body.JObject? || "data" !in body.fields then Absent
    else match body.fields["data"]
      case JArray(items) => if items == [] then Absent else PhoneOfItem(column, items[0])
      case JObject(fields) => if fields == map[] then Absent else Raises
      case JString(_) => Absent
      case _ => Raises
  }

  function PhoneOfItem(column: Json -> Option<string>, item: Json): PhoneField {
    match item
    case JObject(fields) =>
      if "taxi_phone_number" !in fields then Absent
      else
        var stored := column(fields["taxi_phone_number"]);
        if stored.None? then Raises else Phone(stored.value)
    case JArray(items) => if JString("taxi_phone_number") in items then Raises else Absent
    case JString(s) => if Contains(s, "taxi_phone_number") then Raises else Absent
    case _ => Raises
  }

  predicate Successful(code: int) {
    200 <= code < 300
  }

  /** The reply raises in the job, before anything is committed. */
  predicate KillsJob(column: Json -> Option<string>, reply: Reply) {
    match reply
    case Unreachable => false
    case Uncaught => true
    case Answered(code, body) =>
      body.Unhandled? || (Successful(code) && body.Decoded? && PhoneIn(column, body.json).Raises?)
  }

  predicate Contains(s: string, part: string) {
    part <= s || (s != "" && Contains(s[1..], part))
  }

  datatype Extra = NoExtra | PermittedExtra | ForbiddenExtra

  /** The body of a request to change a hail; extra stands for its other fields. */
  datatype HailRequest = HailRequest(status: Option<HailStatus>, phone: string, event: string, extra: Extra)

  datatype CreateRequest = CreateRequest(
    moteur: User,
    customer: nat,
    session: nat,
    taxi: TaxiId,
    now: real,
    banned: bool,
    position: Option<int>,
    sessionKnown: bool,
    located: bool)

  /** What a background job finds around it: the time, the operator's reply, the taxis near the customer. */
  datatype Surroundings = Surroundings(now: real, reply: Reply, nearby: seq<TaxiId>)

  datatype Action =
    | Create(request: CreateRequest)
    | PutHail(hail: HailId, user: User, change: HailRequest)
    | PutTaxi(taxi: TaxiId, user: User, status: TaxiStatus, recentPosition: bool)
    | Suspend(taxi: TaxiId, user: User)
    | RunJob(index: nat, around: Surroundings)

  datatype CreateError =
    | NotAuthorized | UnknownTaxi | BannedCustomer | NotOnline | NoLongerOnline | NotFree | UnknownSession | NoAddress

  datatype PutError =
    | HailNotFound | NotYourHail | EventWithOtherFields | Refused(reason: TransitionError) | FieldForbidden

  datatype TaxiError = NotYourTaxi | StatusNotAllowed | HasActiveHail | FreshPositionRequired

  datatype ReassignError =
    | SourceNotReassignable | ActiveHailExists | MaxAttemptsReached | NoCandidate

  // ---------------------------------------------------------------- queries

  /** The foreign keys: every hail has a taxi and every job has a hail. */
  ghost predicate Keys(s: State) {
    && (forall i | 0 <= i < |s.hails| :: s.hails[i].taxi in s.taxis)
    && (forall k | 0 <= k < |s.jobs| :: s.jobs[k].hail < |s.hails|)
    && (forall k | 0 <= k < |s.jobs| && s.jobs[k].Place? :: s.jobs[k].choice in s.taxis)
  }

  predicate Active(s: State, i: HailId) {
    i < |s.hails| && !Terminal(s.hails[i].status)
  }

  predicate TaxiEngaged(s: State, t: TaxiId) {
    exists i | 0 <= i < |s.hails| :: s.hails[i].taxi == t && Active(s, i)
  }

  /** A reassignment of the session has chosen a taxi and still holds the locks on the session's hails. */
  predicate Placing(s: State, session: Session) {
    exists k | 0 <= k < |s.jobs| ::
      s.jobs[k].Place? && s.jobs[k].hail < |s.hails| && s.hails[s.jobs[k].hail].session == session
  }

  /** A reassignment waits until another one of its session has ended. */
  predicate Waits(s: State, job: Job) {
    job.Reassign? && job.hail < |s.hails| && Placing(s, s.hails[job.hail].session)
  }

  predicate OtherActiveInSession(s: State, h: HailId)
    requires h < |s.hails|
  {
    exists i | 0 <= i < |s.hails| :: i != h && s.hails[i].session == s.hails[h].session && Active(s, i)
  }

  function SessionSize(hails: seq<HailRow>, session: Session): nat {
    if hails == [] then 0
    else SessionSize(hails[..|hails| - 1], session) + (if hails[|hails| - 1].session == session then 1 else 0)
  }

  function Contacted(s: State, session: Session): set<TaxiId> {
    set i | 0 <= i < |s.hails| && s.hails[i].session == session :: s.hails[i].taxi
  }

  /** The nearest taxi that is free and that the session has not contacted yet. */
  function FirstCandidate(s: State, nearby: seq<TaxiId>, contacted: set<TaxiId>): (r: Option<TaxiId>)
    ensures r.Some? ==>
      && r.value in nearby && r.value !in contacted
      && r.value in s.taxis && s.taxis[r.value].status.Free?
    ensures r.None? ==>
      forall t | t in nearby && t in s.taxis && s.taxis[t].status.Free? :: t in contacted
  {
    if nearby == [] then None
    else if nearby[0] in s.taxis && s.taxis[nearby[0]].status.Free? && nearby[0] !in contacted then Some(nearby[0])
    else FirstCandidate(s, nearby[1..], contacted)
  }

  // ---------------------------------------------------------------- writes

  /** Commits a new version of a hail together with the status of its taxi. */
  function Commit(s: State, h: HailId, row: HailRow, taxi: TaxiStatus): State
    requires Keys(s) && h < |s.hails|
  {
    var t := s.hails[h].taxi;
    s.(hails := s.hails[h := row], taxis := s.taxis[t := s.taxis[t].(status := taxi)])
  }

  /** Inserts a hail, marks its taxi as answering and asks for the operator to be told. */
  function Insert(s: State, row: HailRow): State
    requires row.taxi in s.taxis
  {
    s.(hails := s.hails + [row],
       taxis := s.taxis[row.taxi := s.taxis[row.taxi].(status := Answering)],
       jobs := s.jobs + [Send(|s.hails|)])
  }

  function Enqueue(s: State, jobs: seq<Job>): State {
    s.(jobs := s.jobs + jobs)
  }

  function Without(jobs: seq<Job>, k: nat): seq<Job>
    requires k < |jobs|
  {
    jobs[..k] + jobs[k + 1..]
  }

  function TimerFor(h: HailId, status: HailStatus): seq<Job> {
    match TimeoutFor(status)
    case None => []
    case Some(spec) => [Timer(h, status, spec.hail, spec.taxi)]
  }

  /** What a request enqueues once it has moved a hail to the status given. */
  function FollowUp(h: HailId, status: HailStatus): seq<Job> {
    if TimeoutFor(status).Some? then TimerFor(h, status)
    else if status.DeclinedByTaxi? then [Reassign(h)]
    else []
  }

  // ---------------------------------------------------------------- steps

  function CreateCheck(cfg: Config, s: State, r: CreateRequest): Option<CreateError> {
    if Moteur !in r.moteur.roles && Admin !in r.moteur.roles then Some(NotAuthorized)
    else if r.taxi !in s.taxis then Some(UnknownTaxi)
    else if r.banned then Some(BannedCustomer)
    else if r.position.None? then Some(NotOnline)
    else if r.now - r.position.value as real > cfg.gpsFreshness as real then Some(NoLongerOnline)
    else if !s.taxis[r.taxi].status.Free? then Some(NotFree)
    else if TaxiEngaged(s, r.taxi) then Some(NotFree)
    else if !r.sessionKnown then Some(UnknownSession)
    else if !r.located then Some(NoAddress)
    else None
  }

  function CreateRow(s: State, r: CreateRequest): HailRow
    requires r.taxi in s.taxis
  {
    NewRow(r.taxi, Session(r.moteur.id, r.customer, r.session), s.taxis[r.taxi].operateur, Requested, r.now,
           Some(r.moteur.id), NoReason)
  }

  function CreateStep(cfg: Config, s: State, r: CreateRequest): (s': State)
    ensures Keys(s) ==> Keys(s')
  {
    if CreateCheck(cfg, s, r).Some? then s else Insert(s, CreateRow(s, r))
  }

  /** The outcome of a request on a hail: an error, nothing to move, or a move that was applied. */
  function PutHailResult(s: State, h: HailId, user: User, r: HailRequest): Result<Option<Applied>, PutError>
    requires Keys(s)
  {
    if h >= |s.hails| then Err(HailNotFound)
    else
      var row := s.hails[h];
      if user.id != row.operateur && user.id != row.session.moteur && Admin !in user.roles then Err(NotYourHail)
      else if r.event != "" && (r.status.None? || !r.extra.NoExtra?) then Err(EventWithOtherFields)
      else if r.status.None? then
        if r.extra.ForbiddenExtra? then Err(FieldForbidden) else Ok(None)
      else
        var t := Transition(row, s.taxis[row.taxi].status, r.status.value, Some(user), r.phone, r.event);
        if t.Err? then Err(Refused(t.error))
        else if r.extra.ForbiddenExtra? then Err(FieldForbidden)
        else Ok(Some(t.value))
  }

  function PutHailStep(s: State, h: HailId, user: User, r: HailRequest): (s': State)
    requires Keys(s)
    ensures Keys(s')
  {
    match PutHailResult(s, h, user, r)
    case Err(_) => s
    case Ok(None) => s
    case Ok(Some(a)) =>
      var s' := Commit(s, h, a.row, a.taxi);
      if a.changed then Enqueue(s', FollowUp(h, a.row.status)) else s'
  }

  function PutTaxiCheck(s: State, t: TaxiId, user: User, status: TaxiStatus, recent: bool): Option<TaxiError> {
    if t !in s.taxis || s.taxis[t].operateur != user.id then Some(NotYourTaxi)
    else if !Updatable(status) then Some(StatusNotAllowed)
    else if TaxiEngaged(s, t) then Some(HasActiveHail)
    else if status.Free? && !recent then Some(FreshPositionRequired)
    else None
  }

  function PutTaxiStep(s: State, t: TaxiId, user: User, status: TaxiStatus, recent: bool): (s': State)
    ensures Keys(s) ==> Keys(s')
  {
    if PutTaxiCheck(s, t, user, status, recent).Some? then s
    else s.(taxis := s.taxis[t := s.taxis[t].(status := status)])
  }

  /** The conditional suspension leaves a taxi with an active hail as it is. */
  function SuspendStep(s: State, t: TaxiId, user: User): State {
    PutTaxiStep(s, t, user, Off, true)
  }

  /** What the operator request does to the hail it read. */
  datatype SendEffect = NoEffect | Effect(row: HailRow, fails: bool)

  function SendEffectOn(cfg: Config, row: HailRow, around: Surroundings): SendEffect {
    if !row.status.Received? then NoEffect
    else if around.now - row.addedAt > cfg.sendMaxDelay as real then
      Effect(Changed(row, Failure, None, TooLate, ""), true)
    else if row.operateur in cfg.internalOperators then
      Effect(Changed(row, ReceivedByTaxi, None, Handoff, ""), false)
    else match around.reply
      case Unreachable => Effect(Changed(row, Failure, None, OperatorFailed, ""), true)
      case Uncaught => NoEffect
      case Answered(code, body) => AnswerEffectOn(cfg, row, code, body)
  }

  /** The body is decoded before the code is looked at. */
  function AnswerEffectOn(cfg: Config, row: HailRow, code: int, body: Body): SendEffect {
    match body
    case NotJson => Effect(Changed(row, Failure, None, OperatorFailed, ""), true)
    case Unhandled => NoEffect
    case Decoded(json) =>
      if !Successful(code) then Effect(Changed(row, Failure, None, OperatorFailed, ""), true)
      else match PhoneIn(cfg.column, json)
        case Raises => NoEffect
        case Absent => Effect(Changed(row, ReceivedByOperator, None, NoReason, ""), false)
        case Phone(p) => Effect(Changed(row.(phone := p), ReceivedByOperator, None, NoReason, ""), false)
  }

  function SendStep(cfg: Config, s: State, h: HailId, around: Surroundings): (s': State)
    requires Keys(s) && h < |s.hails|
    ensures Keys(s')
  {
    match SendEffectOn(cfg, s.hails[h], around)
    case NoEffect => s
    case Effect(row, fails) =>
      Enqueue(Commit(s, h, row, if fails then Free else s.taxis[s.hails[h].taxi].status), TimerFor(h, row.status))
  }

  function TimerStep(s: State, h: HailId, initial: HailStatus, target: HailStatus, taxi: TaxiStatus): (s': State)
    requires Keys(s) && h < |s.hails|
    ensures Keys(s')
  {
    if s.hails[h].status != initial then s
    else
      var s' := Commit(s, h, Changed(s.hails[h], target, None, TimedOut, ""), taxi);
      if initial.ReceivedByTaxi? && target.TimeoutTaxi? then Enqueue(s', [Reassign(h)]) else s'
  }

  /** What a reassignment decides from what it reads. */
  function ReassignResult(cfg: Config, s: State, h: HailId, nearby: seq<TaxiId>): Result<TaxiId, ReassignError>
    requires h < |s.hails|
  {
    var source := s.hails[h];
    if !Reassignable(source.status) then Err(SourceNotReassignable)
    else if OtherActiveInSession(s, h) then Err(ActiveHailExists)
    else if SessionSize(s.hails, source.session) >= cfg.candidateLimit then Err(MaxAttemptsReached)
    else
      var candidate := FirstCandidate(s, nearby, Contacted(s, source.session));
      if candidate.None? then Err(NoCandidate) else Ok(candidate.value)
  }

  function ReassignRow(s: State, h: HailId, t: TaxiId, now: real): HailRow
    requires h < |s.hails| && t in s.taxis
  {
    NewRow(t, s.hails[h].session, s.taxis[t].operateur, ReassignedFrom(h), now, None,
           ReassignedAfter(s.hails[h].status))
  }

  /** The reading: the choice it makes is still to be inserted. */
  function ReassignStep(cfg: Config, s: State, h: HailId, around: Surroundings): (s': State)
    requires h < |s.hails|
    ensures Keys(s) ==> Keys(s')
  {
    match ReassignResult(cfg, s, h, around.nearby)
    case Err(_) => s
    case Ok(t) => Enqueue(s, [Place(h, t, around.now)])
  }

  /** The insert of what was chosen, whatever has been committed since; the unique index may refuse it. */
  function PlaceStep(s: State, h: HailId, t: TaxiId, now: real): (s': State)
    requires h < |s.hails| && t in s.taxis
    ensures Keys(s) ==> Keys(s')
  {
    if TaxiEngaged(s, t) then s else Insert(s, ReassignRow(s, h, t, now))
  }

  function JobStep(cfg: Config, s: State, job: Job, around: Surroundings): (s': State)
    requires Keys(s) && job.hail < |s.hails| && (job.Place? ==> job.choice in s.taxis)
    ensures Keys(s')
  {
    match job
    case Send(h) => SendStep(cfg, s, h, around)
    case Timer(h, initial, target, taxi) => TimerStep(s, h, initial, target, taxi)
    case Reassign(h) => ReassignStep(cfg, s, h, around)
    case Place(h, t, now) => PlaceStep(s, h, t, now)
  }

  /** One committed request or one job taken off the queue and run. */
  function Step(cfg: Config, s: State, a: Action): (s': State)
    requires Keys(s)
    ensures Keys(s')
  {
    match a
    case Create(r) => CreateStep(cfg, s, r)
    case PutHail(h, user, r) => PutHailStep(s, h, user, r)
    case PutTaxi(t, user, status, recent) => PutTaxiStep(s, t, user, status, recent)
    case Suspend(t, user) => SuspendStep(s, t, user)
    case RunJob(k, around) =>
      if k >= |s.jobs| || Waits(s, s.jobs[k]) then s
      else JobStep(cfg, s.(jobs := Without(s.jobs, k)), s.jobs[k], around)
  }

  function Run(cfg: Config, s: State, actions: seq<Action>): (s': State)
    requires Keys(s)
    ensures Keys(s')
    decreases |actions|
  {
    if actions == [] then s else Run(cfg, Step(cfg, s, actions[0]), actions[1..])
  }

  /** No hail, no job, and every taxi in a status an operator may give it. */
  ghost predicate Initial(s: State) {
    s.hails == [] && s.jobs == [] && forall t | t in s.taxis :: Updatable(s.taxis[t].status)
  }
}
