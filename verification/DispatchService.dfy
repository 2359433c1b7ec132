/**
 The service itself: requests and background tasks as they load rows, change the
 loaded objects, commit them and enqueue what comes next. Each is proved to be
 one step of the protocol.
 */
module DispatchService {
  import opened Wrappers
  import opened HailTypes
  import opened HailMachine
  import opened Dispatch

  class Service {
    const cfg: Config
    var hails: seq<HailRow>
    var taxis: map<TaxiId, Description>
    var jobs: seq<Job>

    ghost function Committed(): State
      reads this
    {
      State(hails, taxis, jobs)
    }

    constructor (cfg: Config, taxis: map<TaxiId, Description>)
      requires forall t | t in taxis :: Updatable(taxis[t].status)
      ensures this.cfg == cfg && this.taxis == taxis && Initial(Committed())
    {
      this.cfg := cfg;
      this.hails := [];
      this.taxis := taxis;
      this.jobs := [];
    }

    /** Writes a loaded hail and the status of its taxi back to their rows. */
    method CommitLoaded(h: HailId, hail: Hail, description: VehicleDescription)
      requires Keys(Committed()) && h < |hails| && hail.Row().taxi == hails[h].taxi
      modifies this
      ensures Committed() == Commit(old(Committed()), h, hail.Row(), description.status)
      ensures Keys(Committed())
    {
      var row := hail.Store();
      hails := hails[h := row];
      taxis := taxis[row.taxi := taxis[row.taxi].(status := description.status)];
    }

    method Schedule(job: Job)
      requires Keys(Committed()) && job.hail < |hails| && (job.Place? ==> job.choice in taxis)
      modifies this`jobs
      ensures Committed() == Enqueue(old(Committed()), [job]) && Keys(Committed())
    {
      jobs := jobs + [job];
    }

    /** Schedules the timeout of the status that the hail has now, if it has one. */
    method ScheduleTimeout(h: HailId, status: HailStatus)
      requires Keys(Committed()) && h < |hails|
      modifies this`jobs
      ensures Committed() == Enqueue(old(Committed()), TimerFor(h, status)) && Keys(Committed())
    {
      var timeout := TimeoutFor(status);
      if timeout.Some? {
        Schedule(Timer(h, status, timeout.value.hail, timeout.value.taxi));
      }
    }

    /** POST /hails/ */
    method CreateHail(r: CreateRequest) returns (result: Result<HailId, CreateError>)
      requires Keys(Committed())
      modifies this
      ensures Keys(Committed())
      ensures Committed() == Step(cfg, old(Committed()), Create(r))
      ensures result == match CreateCheck(cfg, old(Committed()), r) case Some(e) => Err(e) case None => Ok(|old(hails)|)
    {
      if Moteur !in r.moteur.roles && Admin !in r.moteur.roles {
        return Err(NotAuthorized);
      }
      if r.taxi !in taxis {
        return Err(UnknownTaxi);
      }
      if r.banned {
        return Err(BannedCustomer);
      }
      if r.position.None? {
        return Err(NotOnline);
      }
      if r.now - r.position.value as real > cfg.gpsFreshness as real {
        return Err(NoLongerOnline);
      }
      if !taxis[r.taxi].status.Free? {
        return Err(NotFree);
      }
      var engaged := FindActiveHail(r.taxi);
      if engaged {
        return Err(NotFree);
      }
      if !r.sessionKnown {
        return Err(UnknownSession);
      }
      if !r.located {
        return Err(NoAddress);
      }
      var session := Session(r.moteur.id, r.customer, r.session);
      result := Ok(|hails|);
      AddHail(NewRow(r.taxi, session, taxis[r.taxi].operateur, Requested, r.now, Some(r.moteur.id), NoReason));
    }

    method AddHail(row: HailRow)
      requires Keys(Committed()) && row.taxi in taxis
      modifies this
      ensures Committed() == Insert(old(Committed()), row) && Keys(Committed())
    {
      var id := |hails|;
      hails := hails + [row];
      taxis := taxis[row.taxi := taxis[row.taxi].(status := Answering)];
      jobs := jobs + [Send(id)];
    }

    /** Is there a hail of this taxi that is not over? */
    method FindActiveHail(t: TaxiId) returns (engaged: bool)
      ensures engaged == TaxiEngaged(Committed(), t)
    {
      engaged := false;
      for i := 0 to |hails|
        invariant engaged <==> exists j | 0 <= j < i :: hails[j].taxi == t && Active(Committed(), j)
      {
        if hails[i].taxi == t && !Terminal(hails[i].status) {
          engaged := true;
        }
      }
    }

    /** PUT /hails/:id */
    method ChangeHail(h: HailId, user: User, r: HailRequest) returns (result: Result<bool, PutError>)
      requires Keys(Committed())
      modifies this
      ensures Keys(Committed())
      ensures Committed() == Step(cfg, old(Committed()), PutHail(h, user, r))
      ensures
        match PutHailResult(old(Committed()), h, user, r)
        case Err(e) => result == Err(e)
        case Ok(None) => result == Ok(false)
        case Ok(Some(a)) => result == Ok(a.changed)
    {
      if h >= |hails| {
        return Err(HailNotFound);
      }
      var row := hails[h];
      if user.id != row.operateur && user.id != row.session.moteur && Admin !in user.roles {
        return Err(NotYourHail);
      }
      if r.event != "" && (r.status.None? || !r.extra.NoExtra?) {
        return Err(EventWithOtherFields);
      }
      if r.status.None? {
        if r.extra.ForbiddenExtra? {
          return Err(FieldForbidden);
        }
        return Ok(false);
      }
      var hail := new Hail.Load(row);
      var description := new VehicleDescription.Load(taxis[row.taxi].status);
      var moved := ApplyTransition(hail, description, r.status.value, Some(user), r.phone, r.event);
      if moved.Err? {
        return Err(Refused(moved.error));
      }
      if r.extra.ForbiddenExtra? {
        return Err(FieldForbidden);
      }
      CommitLoaded(h, hail, description);
      if moved.value.0 {
        if TimeoutFor(hail.status).Some? {
          ScheduleTimeout(h, hail.status);
        } else if hail.status.DeclinedByTaxi? {
          Schedule(Reassign(h));
        }
      }
      result := Ok(moved.value.0);
    }

    /** PUT /taxis/:id, the status only */
    method ChangeTaxi(t: TaxiId, user: User, status: TaxiStatus, recent: bool) returns (error: Option<TaxiError>)
      requires Keys(Committed())
      modifies this`taxis
      ensures Keys(Committed())
      ensures Committed() == Step(cfg, old(Committed()), PutTaxi(t, user, status, recent))
      ensures error == PutTaxiCheck(old(Committed()), t, user, status, recent)
    {
      if t !in taxis || taxis[t].operateur != user.id {
        return Some(NotYourTaxi);
      }
      if !Updatable(status) {
        return Some(StatusNotAllowed);
      }
      var engaged := FindActiveHail(t);
      if engaged {
        return Some(HasActiveHail);
      }
      if status.Free? && !recent {
        return Some(FreshPositionRequired);
      }
      if status != taxis[t].status {
        taxis := taxis[t := taxis[t].(status := status)];
      } else {
        assert taxis[t := taxis[t].(status := status)] == taxis;
      }
      error := None;
    }

    /** The hail fails and its taxi is free again. */
    method Fail(h: HailId, reason: Reason)
      requires Keys(Committed()) && h < |hails|
      modifies this
      ensures Keys(Committed())
      ensures Committed() == Commit(old(Committed()), h, Changed(old(hails[h]), Failure, None, reason, ""), Free)
    {
      var hail := new Hail.Load(hails[h]);
      var description := new VehicleDescription.Load(taxis[hails[h].taxi].status);
      hail.ChangeStatus(Failure, None, reason, "");
      description.status := Free;
      CommitLoaded(h, hail, description);
    }

    /** The task send_request_operator, as one step. */
    method SendRequest(h: HailId, around: Surroundings) returns (sent: bool)
      requires Keys(Committed()) && h < |hails|
      modifies this
      ensures Keys(Committed())
      ensures Committed() == SendStep(cfg, old(Committed()), h, around)
      ensures sent ==> hails[h].status.ReceivedByOperator? || hails[h].status.ReceivedByTaxi?
    {
      var row := hails[h];
      if !row.status.Received? {
        return false;
      }
      if around.now - row.addedAt > cfg.sendMaxDelay as real {
        Fail(h, TooLate);
        return false;
      }
      var hail := new Hail.Load(row);
      var description := new VehicleDescription.Load(taxis[row.taxi].status);
      if row.operateur in cfg.internalOperators {
        hail.ChangeStatus(ReceivedByTaxi, None, Handoff, "");
        CommitLoaded(h, hail, description);
        ScheduleTimeout(h, hail.status);
        return true;
      }
      if around.reply.Unreachable? {
        Fail(h, OperatorFailed);
        return false;
      }
      if around.reply.Uncaught? || around.reply.body.Unhandled? {
        // The job dies with its exception, and nothing is committed.
        return false;
      }
      if around.reply.body.NotJson? || !Successful(around.reply.code) {
        Fail(h, OperatorFailed);
        return false;
      }
      var phone := PhoneIn(cfg.column, around.reply.body.json);
      if phone.Raises? {
        // Likewise.
        return false;
      }
      if phone.Phone? {
        hail.phone := phone.number;
      }
      hail.ChangeStatus(ReceivedByOperator, None, NoReason, "");
      CommitLoaded(h, hail, description);
      ScheduleTimeout(h, hail.status);
      sent := true;
    }

    /** The task handle_hail_timeout; what follows its commit is left pending. */
    method HandleTimeout(h: HailId, initial: HailStatus, target: HailStatus, taxi: TaxiStatus)
      requires Keys(Committed()) && h < |hails|
      modifies this
      ensures Keys(Committed())
      ensures Committed() == TimerStep(old(Committed()), h, initial, target, taxi)
    {
      var row := hails[h];
      if row.status != initial {
        return;
      }
      var hail := new Hail.Load(row);
      var description := new VehicleDescription.Load(taxis[row.taxi].status);
      hail.ChangeStatus(target, None, TimedOut, "");
      description.status := taxi;
      CommitLoaded(h, hail, description);
      var unanswered := initial.ReceivedByTaxi? && target.TimeoutTaxi?;
      if unanswered {
        Schedule(Reassign(h));
      }
    }

    /** reassign_after_driver_unavailable up to its choice, which is left pending. */
    method ReassignAfterDriverUnavailable(h: HailId, around: Surroundings)
      returns (result: Result<TaxiId, ReassignError>)
      requires Keys(Committed()) && h < |hails|
      modifies this
      ensures Keys(Committed())
      ensures Committed() == ReassignStep(cfg, old(Committed()), h, around)
      ensures result == ReassignResult(cfg, old(Committed()), h, around.nearby)
    {
      var source := hails[h];
      if !Reassignable(source.status) {
        return Err(SourceNotReassignable);
      }
      if exists i | 0 <= i < |hails| :: i != h && hails[i].session == source.session && !Terminal(hails[i].status) {
        return Err(ActiveHailExists);
      }
      if SessionSize(hails, source.session) >= cfg.candidateLimit {
        return Err(MaxAttemptsReached);
      }
      var contacted := set i | 0 <= i < |hails| && hails[i].session == source.session :: hails[i].taxi;
      var candidate := FirstCandidate(State(hails, taxis, jobs), around.nearby, contacted);
      if candidate.None? {
        return Err(NoCandidate);
      }
      Schedule(Place(h, candidate.value, around.now));
      result := Ok(candidate.value);
    }

    /** _create_reassignment_hail: the insert, unless the unique index on active hails refuses it. */
    method CreateReassignmentHail(h: HailId, t: TaxiId, now: real) returns (inserted: bool)
      requires Keys(Committed()) && h < |hails| && t in taxis
      modifies this
      ensures Keys(Committed())
      ensures Committed() == PlaceStep(old(Committed()), h, t, now)
      ensures inserted <==> !TaxiEngaged(old(Committed()), t)
    {
      var source := hails[h];
      var engaged := FindActiveHail(t);
      if engaged {
        return false;
      }
      AddHail(NewRow(t, source.session, taxis[t].operateur, ReassignedFrom(h), now, None,
                     ReassignedAfter(source.status)));
      inserted := true;
    }

    /** Must the job wait for the locks on its session's hails? */
    method MustWait(k: nat) returns (waits: bool)
      requires Keys(Committed()) && k < |jobs|
      ensures waits == Waits(Committed(), jobs[k])
    {
      if !jobs[k].Reassign? {
        return false;
      }
      var session := hails[jobs[k].hail].session;
      waits := false;
      for i := 0 to |jobs|
        invariant waits <==> exists j | 0 <= j < i :: jobs[j].Place? && hails[jobs[j].hail].session == session
      {
        if jobs[i].Place? && hails[jobs[i].hail].session == session {
          waits := true;
        }
      }
    }

    /** A worker takes the job at the place given and runs it. */
    method Work(k: nat, around: Surroundings)
      requires Keys(Committed()) && k < |jobs|
      modifies this
      ensures Keys(Committed())
      ensures Committed() == Step(cfg, old(Committed()), RunJob(k, around))
    {
      var job := jobs[k];
      var waits := MustWait(k);
      if waits {
        return;
      }
      jobs := Without(jobs, k);
      match job
      case Send(h) =>
        var sent := SendRequest(h, around);
      case Timer(h, initial, target, taxi) =>
        HandleTimeout(h, initial, target, taxi);
      case Reassign(h) =>
        var result := ReassignAfterDriverUnavailable(h, around);
      case Place(h, t, now) =>
        var inserted := CreateReassignmentHail(h, t, now);
    }
  }
}
