/**
 Between its reading and its insert a reassignment holds locks on the hails that
 its session had, and on nothing else: what other requests commit meanwhile, and
 exactly what that does to the hail it inserts.
 */
module DispatchPlacement {
  import opened Wrappers
  import opened HailTypes
  import opened HailMachine
  import opened Dispatch
  import opened DispatchInvariant
  import opened DispatchHistory
  import opened DispatchScenario

  // ------------------------------------------------- the reading

  /** What a reassignment has read about its choice. */
  ghost predicate FreshChoice(cfg: Config, s: State, h: HailId, t: TaxiId)
    requires h < |s.hails|
  {
    && t in s.taxis && s.taxis[t].status.Free? && !TaxiEngaged(s, t)
    && (forall i | 0 <= i < |s.hails| && s.hails[i].session == s.hails[h].session ::
          Terminal(s.hails[i].status) && s.hails[i].taxi != t)
    && SessionSize(s.hails, s.hails[h].session) < cfg.candidateLimit
  }

  lemma {:induction false} FreeTaxiIsIdle(s: State, t: TaxiId)
    requires Keys(s) && Coupled(s) && t in s.taxis && s.taxis[t].status.Free?
    ensures !TaxiEngaged(s, t)
  {
  }

  lemma {:induction false} ChoiceIsFresh(cfg: Config, s: State, h: HailId, nearby: seq<TaxiId>)
    requires Keys(s) && Coupled(s) && h < |s.hails| && ReassignResult(cfg, s, h, nearby).Ok?
    ensures FreshChoice(cfg, s, h, ReassignResult(cfg, s, h, nearby).value)
  {
  }

  /**
   At its reading a reassignment chooses a free taxi without an active hail that
   no hail of the session used, finds the session without an active hail and
   within the limit, and changes nothing but the queue.
   */
  lemma {:induction false} ReadingChooses(cfg: Config, s: State, k: nat, around: Surroundings)
    requires Inv(cfg, s) && k < |s.jobs| && s.jobs[k].Reassign? && !Waits(s, s.jobs[k])
    ensures
      var h, s' := s.jobs[k].hail, Step(cfg, s, RunJob(k, around));
      var result := ReassignResult(cfg, s, h, around.nearby);
      && s'.hails == s.hails && s'.taxis == s.taxis
      && (result.Ok? ==> FreshChoice(cfg, s', h, result.value) && Place(h, result.value, around.now) in s'.jobs)
      && (result.Err? ==> s'.jobs == Without(s.jobs, k))
  {
    var h, s0 := s.jobs[k].hail, s.(jobs := Without(s.jobs, k));
    var result := ReassignResult(cfg, s0, h, around.nearby);
    assert result == ReassignResult(cfg, s, h, around.nearby) by {
      SameReading(cfg, s, s0, h, around.nearby);
    }
    if result.Ok? {
      var s' := Step(cfg, s, RunJob(k, around));
      assert s'.jobs[|s0.jobs|] == Place(h, result.value, around.now);
      SameReading(cfg, s, s', h, around.nearby);
      ChoiceIsFresh(cfg, s', h, around.nearby);
    }
  }

  /** The reading does not depend on the queue. */
  lemma {:induction false} SameReading(cfg: Config, s: State, s': State, h: HailId, nearby: seq<TaxiId>)
    requires s.hails == s'.hails && s.taxis == s'.taxis && h < |s.hails|
    ensures ReassignResult(cfg, s, h, nearby) == ReassignResult(cfg, s', h, nearby)
  {
    assert Contacted(s, s.hails[h].session) == Contacted(s', s.hails[h].session);
    assert OtherActiveInSession(s, h) <==> OtherActiveInSession(s', h);
    SameCandidate(s, s', nearby, Contacted(s, s.hails[h].session));
  }

  lemma {:induction false} SameCandidate(s: State, s': State, nearby: seq<TaxiId>, contacted: set<TaxiId>)
    requires s.taxis == s'.taxis
    ensures FirstCandidate(s, nearby, contacted) == FirstCandidate(s', nearby, contacted)
  {
    if nearby != [] {
      SameCandidate(s, s', nearby[1..], contacted);
    }
  }

  // ------------------------------------------------- while the choice is pending

  ghost predicate StaysPending(cfg: Config, s: State, actions: seq<Action>, job: Job)
    requires Keys(s)
    decreases |actions|
  {
    job in s.jobs && (actions == [] || StaysPending(cfg, Step(cfg, s, actions[0]), actions[1..], job))
  }

  /** Every hail of the session since the one numbered n was asked for by the customer. */
  ghost predicate OnlyRequestsSince(hails: seq<HailRow>, n: nat, session: Session) {
    forall i | n <= i < |hails| && hails[i].session == session :: hails[i].origin.Requested?
  }

  /** Another choice that runs inserts its hail elsewhere, since a session has one choice at most. */
  lemma {:induction false} PlaceWhilePending(cfg: Config, s: State, k: nat, around: Surroundings, job: Job)
    requires Inv(cfg, s) && job.Place? && job.hail < |s.hails| && k < |s.jobs| && s.jobs[k].Place?
    requires job in Without(s.jobs, k)
    ensures OnlyRequestsSince(Step(cfg, s, RunJob(k, around)).hails, |s.hails|, s.hails[job.hail].session)
  {
    PlaceRuns(cfg, s, k, around);
    var rest := Without(s.jobs, k);
    WithoutIsSubsequence(s.jobs, k);
    var i :| 0 <= i < |rest| && rest[i] == job;
    assert s.jobs[if i < k then i else i + 1] == job;
  }

  lemma {:induction false} JobWhilePending(cfg: Config, s: State, k: nat, around: Surroundings, job: Job)
    requires Inv(cfg, s) && job.Place? && job.hail < |s.hails| && k < |s.jobs| && !Waits(s, s.jobs[k])
    requires job in Step(cfg, s, RunJob(k, around)).jobs
    ensures OnlyRequestsSince(Step(cfg, s, RunJob(k, around)).hails, |s.hails|, s.hails[job.hail].session)
  {
    if s.jobs[k].Place? {
      assert job in Without(s.jobs, k);
      PlaceWhilePending(cfg, s, k, around, job);
    }
  }

  lemma {:induction false} StepWhilePending(cfg: Config, s: State, a: Action, job: Job)
    requires Inv(cfg, s) && job.Place? && job in s.jobs && job in Step(cfg, s, a).jobs
    ensures job.hail < |s.hails|
    ensures OnlyRequestsSince(Step(cfg, s, a).hails, |s.hails|, s.hails[job.hail].session)
  {
    if a.RunJob? && a.index < |s.jobs| && !Waits(s, s.jobs[a.index]) {
      JobWhilePending(cfg, s, a.index, a.around, job);
    }
  }

  /** While a choice is pending, only customers add hails to its session. */
  lemma {:induction false} RunWhilePending(cfg: Config, s: State, actions: seq<Action>, job: Job)
    requires Inv(cfg, s) && job.Place? && StaysPending(cfg, s, actions, job)
    ensures job.hail < |s.hails|
    ensures OnlyRequestsSince(Run(cfg, s, actions).hails, |s.hails|, s.hails[job.hail].session)
    decreases |actions|
  {
    var k :| 0 <= k < |s.jobs| && s.jobs[k] == job;
    if actions != [] {
      var s' := Step(cfg, s, actions[0]);
      StepKeepsInv(cfg, s, actions[0]);
      StepGrows(cfg, s, actions[0]);
      StepWhilePending(cfg, s, actions[0], job);
      RunWhilePending(cfg, s', actions[1..], job);
      RunGrows(cfg, s', actions[1..]);
      var end := Run(cfg, s', actions[1..]);
      forall i | |s.hails| <= i < |end.hails| && end.hails[i].session == s.hails[job.hail].session
        ensures end.hails[i].origin.Requested?
      {
        assert i < |s'.hails| ==> SameHail(s'.hails[i], end.hails[i]);
      }
    }
  }

  /** A session grows by what its customer asks for. */
  lemma {:induction false} SizeSince(before: seq<HailRow>, after: seq<HailRow>, session: Session)
    requires 0 < |before| <= |after| && OnlyRequestsSince(after, |before|, session)
    requires forall i | 0 <= i < |before| :: after[i].session == before[i].session
    ensures SessionSize(after, session) ==
            SessionSize(before, session) + RequestedAfter(after, session, |before| - 1)
    decreases |after|
  {
    var n := |after| - 1;
    if |before| <= n {
      SizeSince(before, after[..n], session);
    } else {
      SameSizes(before, after, session);
      NoneAfterLast(after, session, n);
    }
  }

  lemma {:induction false} SameSizes(a: seq<HailRow>, b: seq<HailRow>, session: Session)
    requires |a| == |b| && forall i | 0 <= i < |a| :: a[i].session == b[i].session
    ensures SessionSize(a, session) == SessionSize(b, session)
  {
    if a != [] {
      SameSizes(a[..|a| - 1], b[..|b| - 1], session);
    }
  }

  lemma {:induction false} NoneAfterLast(hails: seq<HailRow>, session: Session, h: HailId)
    requires |hails| <= h + 1
    ensures RequestedAfter(hails, session, h) == 0
  {
    if hails != [] {
      NoneAfterLast(hails[..|hails| - 1], session, h);
    }
  }

  // ------------------------------------------------- the insert

  /** A hail made since the reading, on this taxi and not over. */
  ghost predicate TakenSince(s: State, n: nat, t: TaxiId) {
    exists i | n <= i < |s.hails| :: s.hails[i].taxi == t && Active(s, i)
  }

  /** A hail that was over stays over. */
  lemma {:induction false} OverStaysOver(cfg: Config, s: State, actions: seq<Action>, i: HailId)
    requires Inv(cfg, s) && i < |s.hails| && Terminal(s.hails[i].status)
    ensures
      var end := Run(cfg, s, actions);
      i < |end.hails| && end.hails[i] == s.hails[i]
  {
    HailAfterRun(cfg, s, actions, i);
    var row, row' := s.hails[i], Run(cfg, s, actions).hails[i];
    FaithfulLogIsShort(row');
    if |row.log| < |row'.log| {
      assert row'.log[|row.log| - 1] == row.log[|row.log| - 1];
      NotTerminalBefore(row', |row.log| - 1);
    }
  }

  /** What a faithful log leaves was not an end. */
  lemma {:induction false} NotTerminalBefore(row: HailRow, k: nat)
    requires Faithful(row) && k + 1 < |row.log|
    ensures !Terminal(row.log[k].to)
  {
    assert Linked(row.log, k + 1);
    EdgesClimb(row.log[k].to, row.log[k + 1].to);
  }

  lemma {:induction false} EngagedIsTakenSince(cfg: Config, s: State, between: seq<Action>, t: TaxiId)
    requires Inv(cfg, s) && !TaxiEngaged(s, t)
    ensures TaxiEngaged(Run(cfg, s, between), t) <==> TakenSince(Run(cfg, s, between), |s.hails|, t)
  {
    var end := Run(cfg, s, between);
    forall i | 0 <= i < |s.hails| && s.hails[i].taxi == t
      ensures i < |end.hails| && !Active(end, i)
    {
      assert !Active(s, i);
      OverStaysOver(cfg, s, between, i);
    }
    RunGrows(cfg, s, between);
  }

  lemma {:induction false} PlaceRuns(cfg: Config, s: State, k: nat, around: Surroundings)
    requires Inv(cfg, s) && k < |s.jobs| && s.jobs[k].Place?
    ensures
      var job, s' := s.jobs[k], Step(cfg, s, RunJob(k, around));
      && job.hail < |s.hails| && job.choice in s.taxis
      && (TaxiEngaged(s, job.choice) ==> s'.hails == s.hails && s'.taxis == s.taxis)
      && (!TaxiEngaged(s, job.choice) ==>
            && s'.hails == s.hails + [ReassignRow(s, job.hail, job.choice, job.now)]
            && s'.taxis == s.taxis[job.choice := Description(s.taxis[job.choice].operateur, Answering)]
            && s'.jobs == Without(s.jobs, k) + [Send(|s.hails|)])
  {
  }

  /**
   The unique index refuses the insert exactly when a hail that was committed
   since the reading holds the taxi; then nothing but the queue changes.
   */
  lemma {:induction false} IndexRefusesExactlyWhenTaken(cfg: Config, s: State, job: Job, between: seq<Action>, k: nat,
                                                        around: Surroundings)
    requires Inv(cfg, s) && job.Place? && !TaxiEngaged(s, job.choice)
    requires k < |Run(cfg, s, between).jobs| && Run(cfg, s, between).jobs[k] == job
    ensures
      var s1 := Run(cfg, s, between);
      var s2 := Step(cfg, s1, RunJob(k, around));
      && (s2.hails == s1.hails <==> TakenSince(s1, |s.hails|, job.choice))
      && (s2.hails == s1.hails ==> s2.taxis == s1.taxis)
  {
    var s1 := Run(cfg, s, between);
    RunKeepsInv(cfg, s, between);
    EngagedIsTakenSince(cfg, s, between, job.choice);
    PlaceRuns(cfg, s1, k, around);
  }

  ghost predicate ActiveInSession(s: State, session: Session) {
    exists i | 0 <= i < |s.hails| :: s.hails[i].session == session && Active(s, i)
  }

  /** The customer has asked for a hail of the session since the one numbered n, and it is not over. */
  ghost predicate ActiveAskedSince(s: State, n: nat, session: Session) {
    exists i | n <= i < |s.hails| ::
      s.hails[i].session == session && s.hails[i].origin.Requested? && Active(s, i)
  }

  /** The customer has asked for this taxi in the session since the hail numbered n. */
  ghost predicate TaxiAskedSince(s: State, n: nat, session: Session, t: TaxiId) {
    exists i | n <= i < |s.hails| ::
      s.hails[i].session == session && s.hails[i].origin.Requested? && s.hails[i].taxi == t
  }

  /** What the reading found over and unused is over and unused still. */
  lemma {:induction false} ReadHailsAreAsRead(cfg: Config, s: State, job: Job, between: seq<Action>, i: HailId)
    requires Inv(cfg, s) && job.Place? && job.hail < |s.hails| && FreshChoice(cfg, s, job.hail, job.choice)
    requires i < |s.hails| && s.hails[i].session == s.hails[job.hail].session
    ensures
      var s1 := Run(cfg, s, between);
      i < |s1.hails| && !Active(s1, i) && s1.hails[i].taxi != job.choice
  {
    OverStaysOver(cfg, s, between, i);
  }

  lemma {:induction false} SessionSinceReading(cfg: Config, s: State, job: Job, between: seq<Action>)
    requires Inv(cfg, s) && job.Place? && StaysPending(cfg, s, between, job)
    requires job.hail < |s.hails| && FreshChoice(cfg, s, job.hail, job.choice)
    ensures
      var s1, n, session := Run(cfg, s, between), |s.hails|, s.hails[job.hail].session;
      && (ActiveInSession(s1, session) <==> ActiveAskedSince(s1, n, session))
      && (job.choice in Contacted(s1, session) <==> TaxiAskedSince(s1, n, session, job.choice))
  {
    var s1, session := Run(cfg, s, between), s.hails[job.hail].session;
    RunWhilePending(cfg, s, between, job);
    RunGrows(cfg, s, between);
    forall i | 0 <= i < |s.hails| && s1.hails[i].session == session
      ensures !Active(s1, i) && s1.hails[i].taxi != job.choice
    {
      assert SameHail(s.hails[i], s1.hails[i]);
      ReadHailsAreAsRead(cfg, s, job, between, i);
    }
  }

  /** The hail that a choice has inserted: of the session of its source, and of the operator of its own taxi. */
  ghost predicate Placed(s1: State, s2: State, job: Job)
    requires job.Place? && job.hail < |s1.hails|
  {
    && |s2.hails| == |s1.hails| + 1 && s2.hails[..|s1.hails|] == s1.hails
    && job.choice in s1.taxis
    && s2.taxis == s1.taxis[job.choice := Description(s1.taxis[job.choice].operateur, Answering)]
    && var row, source := s2.hails[|s1.hails|], s1.hails[job.hail];
    && row.session == source.session && row.origin == ReassignedFrom(job.hail)
    && row.taxi == job.choice && row.operateur == s1.taxis[job.choice].operateur
    && row.addedAt == job.now && row.status == Received && row.phone == ""
    && row.log == [Entry(None, Received, None, ReassignedAfter(source.status), "")]
    && Send(|s1.hails|) in s2.jobs
  }

  lemma {:induction false} ChoiceIsPlaced(cfg: Config, s: State, job: Job, between: seq<Action>, k: nat,
                                          around: Surroundings)
    requires Inv(cfg, s) && job.Place? && job.hail < |s.hails| && !TaxiEngaged(s, job.choice)
    requires k < |Run(cfg, s, between).jobs| && Run(cfg, s, between).jobs[k] == job
    requires !TakenSince(Run(cfg, s, between), |s.hails|, job.choice)
    ensures
      var s1 := Run(cfg, s, between);
      && |s.hails| <= |s1.hails| && s1.hails[job.hail].session == s.hails[job.hail].session
      && Placed(s1, Step(cfg, s1, RunJob(k, around)), job)
  {
    var s1 := Run(cfg, s, between);
    RunKeepsInv(cfg, s, between);
    RunGrows(cfg, s, between);
    EngagedIsTakenSince(cfg, s, between, job.choice);
    PlaceRuns(cfg, s1, k, around);
    assert SameHail(s.hails[job.hail], s1.hails[job.hail]);
  }

  lemma {:induction false} SizeSinceReading(cfg: Config, s: State, job: Job, between: seq<Action>)
    requires Inv(cfg, s) && job.Place? && StaysPending(cfg, s, between, job) && job.hail < |s.hails|
    ensures
      var s1, session := Run(cfg, s, between), s.hails[job.hail].session;
      SessionSize(s1.hails, session) ==
      SessionSize(s.hails, session) + RequestedAfter(s1.hails, session, |s.hails| - 1)
  {
    var s1 := Run(cfg, s, between);
    RunWhilePending(cfg, s, between, job);
    RunGrows(cfg, s, between);
    forall i | 0 <= i < |s.hails|
      ensures s1.hails[i].session == s.hails[i].session
    {
      assert SameHail(s.hails[i], s1.hails[i]);
    }
    SizeSince(s.hails, s1.hails, s.hails[job.hail].session);
  }

  /** The status that a job gives to a taxi, where it gives one. */
  function JobGives(cfg: Config, s: State, job: Job, around: Surroundings, t: TaxiId): Option<TaxiStatus>
    requires job.hail < |s.hails|
  {
    match job
    case Send(h) =>
      var e := SendEffectOn(cfg, s.hails[h], around);
      if s.hails[h].taxi == t && e.Effect? && e.fails then Some(Free) else None
    case Timer(h, initial, _, taxi) => if s.hails[h].taxi == t && s.hails[h].status == initial then Some(taxi) else None
    case Reassign(_) => None
    case Place(_, choice, _) => if choice == t && !TaxiEngaged(s, t) then Some(Answering) else None
  }

  /** The status that a request or a job gives to a taxi, where it gives one. */
  function Gives(cfg: Config, s: State, a: Action, t: TaxiId): Option<TaxiStatus>
    requires Keys(s)
  {
    match a
    case Create(r) => if r.taxi == t && CreateCheck(cfg, s, r).None? then Some(Answering) else None
    case PutHail(h, user, r) =>
      (match PutHailResult(s, h, user, r)
       case Ok(Some(moved)) => if s.hails[h].taxi == t && moved.changed then Some(moved.taxi) else None
       case _ => None)
    case PutTaxi(t', user, status, recent) =>
      if t' == t && PutTaxiCheck(s, t, user, status, recent).None? then Some(status) else None
    case Suspend(t', user) => if t' == t && PutTaxiCheck(s, t, user, Off, true).None? then Some(Off) else None
    case RunJob(k, around) =>
      if k >= |s.jobs| || Waits(s, s.jobs[k]) then None else JobGives(cfg, s, s.jobs[k], around, t)
  }

  /** The last status that was given to a taxi in a run, if any was. */
  function LastGiven(cfg: Config, s: State, actions: seq<Action>, t: TaxiId): Option<TaxiStatus>
    requires Keys(s)
    decreases |actions|
  {
    if actions == [] then None
    else
      var later := LastGiven(cfg, Step(cfg, s, actions[0]), actions[1..], t);
      if later.Some? then later else Gives(cfg, s, actions[0], t)
  }

  lemma {:induction false} JobGivesStatus(cfg: Config, s: State, k: nat, around: Surroundings, t: TaxiId)
    requires Keys(s) && t in s.taxis && k < |s.jobs| && !Waits(s, s.jobs[k])
    ensures
      var s', given := Step(cfg, s, RunJob(k, around)), JobGives(cfg, s, s.jobs[k], around, t);
      t in s'.taxis && s'.taxis[t].status == if given.Some? then given.value else s.taxis[t].status
  {
    var s0 := s.(jobs := Without(s.jobs, k));
    assert TaxiEngaged(s0, t) <==> TaxiEngaged(s, t) by {
      assert forall i | 0 <= i < |s.hails| :: Active(s0, i) <==> Active(s, i);
    }
  }

  lemma {:induction false} StepGivesStatus(cfg: Config, s: State, a: Action, t: TaxiId)
    requires Inv(cfg, s) && t in s.taxis
    ensures
      var s', given := Step(cfg, s, a), Gives(cfg, s, a, t);
      t in s'.taxis && s'.taxis[t].status == if given.Some? then given.value else s.taxis[t].status
  {
    match a
    case PutHail(h, user, r) =>
      var result := PutHailResult(s, h, user, r);
      if result.Ok? && result.value.Some? {
        TransitionStep(s.hails[h], s.taxis[s.hails[h].taxi].status, r.status.value, Some(user), r.phone, r.event);
      }
    case RunJob(k, around) => if k < |s.jobs| && !Waits(s, s.jobs[k]) { JobGivesStatus(cfg, s, k, around, t); }
    case _ =>
  }

  /** A taxi has the status that it was last given. */
  lemma {:induction false} StatusIsLastGiven(cfg: Config, s: State, actions: seq<Action>, t: TaxiId)
    requires Inv(cfg, s) && t in s.taxis
    ensures
      var s', given := Run(cfg, s, actions), LastGiven(cfg, s, actions, t);
      t in s'.taxis && s'.taxis[t].status == if given.Some? then given.value else s.taxis[t].status
    decreases |actions|
  {
    if actions != [] {
      StepGivesStatus(cfg, s, actions[0], t);
      StepKeepsInv(cfg, s, actions[0]);
      StatusIsLastGiven(cfg, Step(cfg, s, actions[0]), actions[1..], t);
    }
  }

  /**
   A hail that a reassignment inserts joins another active hail of its session,
   repeats a taxi of the session, or exceeds the limit, exactly when the
   customer asked for a hail that is still active, for that taxi, or for too
   many hails, in the same session since the reading. Its taxi is still free
   exactly when the last status that it was given since, if any, is free; what
   it has is overwritten by answering.
   */
  lemma {:induction false} PlacedHailExactly(cfg: Config, s: State, job: Job, between: seq<Action>, k: nat,
                                             around: Surroundings)
    requires Inv(cfg, s) && job.Place? && StaysPending(cfg, s, between, job)
    requires job.hail < |s.hails| && FreshChoice(cfg, s, job.hail, job.choice)
    requires k < |Run(cfg, s, between).jobs| && Run(cfg, s, between).jobs[k] == job
    requires !TakenSince(Run(cfg, s, between), |s.hails|, job.choice)
    ensures
      var s1, n, session := Run(cfg, s, between), |s.hails|, s.hails[job.hail].session;
      var s2 := Step(cfg, s1, RunJob(k, around));
      && n <= |s1.hails| && Placed(s1, s2, job)
      && (ActiveInSession(s1, session) <==> ActiveAskedSince(s1, n, session))
      && (job.choice in Contacted(s1, session) <==> TaxiAskedSince(s1, n, session, job.choice))
      && (SessionSize(s2.hails, session) <= cfg.candidateLimit <==>
            SessionSize(s.hails, session) + RequestedAfter(s1.hails, session, n - 1) < cfg.candidateLimit)
      && job.choice in s1.taxis
      && (s1.taxis[job.choice].status.Free? <==>
            LastGiven(cfg, s, between, job.choice) == None || LastGiven(cfg, s, between, job.choice) == Some(Free))
  {
    var s1, session := Run(cfg, s, between), s.hails[job.hail].session;
    ChoiceIsPlaced(cfg, s, job, between, k, around);
    SessionSinceReading(cfg, s, job, between);
    SizeSinceReading(cfg, s, job, between);
    StatusIsLastGiven(cfg, s, between, job.choice);
  }

  /** When nothing of the session and nothing on the taxi was committed meanwhile, the insert keeps what was read. */
  lemma {:induction false} UndisturbedPlacement(cfg: Config, s: State, job: Job, between: seq<Action>, k: nat,
                                                around: Surroundings)
    requires Inv(cfg, s) && job.Place? && StaysPending(cfg, s, between, job)
    requires job.hail < |s.hails| && FreshChoice(cfg, s, job.hail, job.choice)
    requires k < |Run(cfg, s, between).jobs| && Run(cfg, s, between).jobs[k] == job
    requires
      var s1 := Run(cfg, s, between);
      forall i | |s.hails| <= i < |s1.hails| ::
        s1.hails[i].session != s.hails[job.hail].session && s1.hails[i].taxi != job.choice
    ensures
      var s1, session := Run(cfg, s, between), s.hails[job.hail].session;
      var s2 := Step(cfg, s1, RunJob(k, around));
      && Placed(s1, s2, job)
      && (forall i | 0 <= i < |s1.hails| && s1.hails[i].session == session ::
            Terminal(s1.hails[i].status) && s1.hails[i].taxi != job.choice)
      && SessionSize(s2.hails, session) <= cfg.candidateLimit
  {
    var s1, session := Run(cfg, s, between), s.hails[job.hail].session;
    PlacedHailExactly(cfg, s, job, between, k, around);
    NoneRequestedSince(s1.hails, session, |s.hails|);
    RunGrows(cfg, s, between);
    forall i | 0 <= i < |s1.hails| && s1.hails[i].session == session
      ensures Terminal(s1.hails[i].status) && s1.hails[i].taxi != job.choice
    {
      assert SameHail(s.hails[i], s1.hails[i]);
      OverStaysOver(cfg, s, between, i);
    }
  }

  lemma {:induction false} NoneRequestedSince(hails: seq<HailRow>, session: Session, n: nat)
    requires 0 < n && forall i | n <= i < |hails| :: hails[i].session != session
    ensures RequestedAfter(hails, session, n - 1) == 0
  {
    if hails != [] {
      NoneRequestedSince(hails[..|hails| - 1], session, n);
    }
  }

  // ------------------------------------------------- a refused insert ends the chain

  /** The job is a reassignment of this hail, before its reading or after it. */
  predicate Reassigns(job: Job, h: HailId) {
    job.hail == h && (job.Reassign? || job.Place?)
  }

  /** Nothing new comes from this hail: no reassignment of it, and no hail made from it. */
  ghost predicate NothingFrom(s: State, s': State, h: HailId) {
    && (forall job | job in s'.jobs && Reassigns(job, h) :: job in s.jobs)
    && (forall j | |s.hails| <= j < |s'.hails| :: s'.hails[j].origin != ReassignedFrom(h))
  }

  lemma {:induction false} PutHailLeavesSpent(cfg: Config, s: State, h': HailId, user: User, r: HailRequest, h: HailId)
    requires Inv(cfg, s) && h < |s.hails| && Terminal(s.hails[h].status)
    ensures NothingFrom(s, PutHailStep(s, h', user, r), h)
  {
  }

  /** A job of another hail, or a timer or a send of this one once it is over, makes nothing from this hail. */
  lemma {:induction false} JobMakesNothing(cfg: Config, s: State, job: Job, around: Surroundings, h: HailId)
    requires Keys(s) && h < |s.hails| && Terminal(s.hails[h].status)
    requires JobFits(s, job) && (job.Place? ==> job.choice in s.taxis) && !Reassigns(job, h)
    ensures NothingFrom(s, JobStep(cfg, s, job, around), h)
  {
  }

  lemma {:induction false} JobLeavesSpent(cfg: Config, s: State, k: nat, around: Surroundings, h: HailId)
    requires Inv(cfg, s) && h < |s.hails| && Terminal(s.hails[h].status) && Spent(s, h)
    requires k < |s.jobs| && !Waits(s, s.jobs[k])
    ensures NothingFrom(s, Step(cfg, s, RunJob(k, around)), h)
  {
    var s0 := s.(jobs := Without(s.jobs, k));
    WithoutIsSubsequence(s.jobs, k);
    assert JobFits(s, s.jobs[k]) && JobFits(s0, s.jobs[k]);
    assert !Reassigns(s.jobs[k], h);
    JobMakesNothing(cfg, s0, s.jobs[k], around, h);
  }

  lemma {:induction false} StepLeavesSpent(cfg: Config, s: State, a: Action, h: HailId)
    requires Inv(cfg, s) && h < |s.hails| && Terminal(s.hails[h].status) && Spent(s, h)
    ensures NothingFrom(s, Step(cfg, s, a), h)
  {
    match a
    case PutHail(h', user, r) => PutHailLeavesSpent(cfg, s, h', user, r, h);
    case RunJob(k, around) => if k < |s.jobs| && !Waits(s, s.jobs[k]) { JobLeavesSpent(cfg, s, k, around, h); }
    case _ =>
  }

  lemma {:induction false} StepKeepsSpent(cfg: Config, s: State, a: Action, h: HailId)
    requires Inv(cfg, s) && h < |s.hails| && Terminal(s.hails[h].status) && Spent(s, h)
    requires NothingFrom(s, Step(cfg, s, a), h)
    ensures
      var s' := Step(cfg, s, a);
      && h < |s'.hails| && Terminal(s'.hails[h].status)
      && Spent(s', h) && MadeFrom(s', h) == MadeFrom(s, h)
  {
    var s' := Step(cfg, s, a);
    StepGrows(cfg, s, a);
    assert Run(cfg, s, [a]) == s' by {
      assert Run(cfg, s', []) == s';
    }
    OverStaysOver(cfg, s, [a], h);
    forall k | 0 <= k < |s'.jobs|
      ensures !Reassigns(s'.jobs[k], h)
    {
      assert s'.jobs[k] in s'.jobs;
    }
    forall j | 0 <= j < |s'.hails|
      ensures j in MadeFrom(s', h) <==> j in MadeFrom(s, h)
    {
      assert j < |s.hails| ==> SameHail(s.hails[j], s'.hails[j]);
    }
  }

  /** Once a hail is over and has no reassignment pending, it never has one again, and no hail is made from it. */
  lemma {:induction false} SpentForEver(cfg: Config, s: State, actions: seq<Action>, h: HailId)
    requires Inv(cfg, s) && h < |s.hails| && Terminal(s.hails[h].status) && Spent(s, h)
    ensures Spent(Run(cfg, s, actions), h) && MadeFrom(Run(cfg, s, actions), h) == MadeFrom(s, h)
    decreases |actions|
  {
    if actions != [] {
      var s' := Step(cfg, s, actions[0]);
      StepKeepsInv(cfg, s, actions[0]);
      StepLeavesSpent(cfg, s, actions[0], h);
      StepKeepsSpent(cfg, s, actions[0], h);
      SpentForEver(cfg, s', actions[1..], h);
    }
  }

  lemma {:induction false} RefusedIsSpent(cfg: Config, s: State, k: nat, around: Surroundings)
    requires Inv(cfg, s) && k < |s.jobs| && s.jobs[k].Place? && TaxiEngaged(s, s.jobs[k].choice)
    ensures
      var h, s' := s.jobs[k].hail, Step(cfg, s, RunJob(k, around));
      && h < |s'.hails| == |s.hails| && s'.hails == s.hails && Terminal(s'.hails[h].status)
      && Spent(s', h) && MadeFrom(s', h) == {}
  {
    var h, s0 := s.jobs[k].hail, s.(jobs := Without(s.jobs, k));
    DequeuedChoiceFits(cfg, s, k);
    PlaceRuns(cfg, s, k, around);
    assert PlacementFits(cfg, s0, s.jobs[k]);
    assert TaxiEngaged(s0, s.jobs[k].choice) by {
      assert forall i | 0 <= i < |s.hails| :: Active(s0, i) <==> Active(s, i);
    }
    assert Step(cfg, s, RunJob(k, around)) == s0;
  }

  /**
   When the index refuses an insert, the chain of hails ends there: whatever is
   asked and whatever runs later, nothing is ever made from the source, and the
   source itself stays as it is.
   */
  lemma {:induction false} RefusedInsertEndsTheChain(cfg: Config, s: State, k: nat, around: Surroundings,
                                                     later: seq<Action>)
    requires Inv(cfg, s) && k < |s.jobs| && s.jobs[k].Place? && TaxiEngaged(s, s.jobs[k].choice)
    ensures
      var h, end := s.jobs[k].hail, Run(cfg, Step(cfg, s, RunJob(k, around)), later);
      && h < |s.hails| && h < |end.hails| && end.hails[h] == s.hails[h]
      && Spent(end, h) && MadeFrom(end, h) == {}
  {
    var h, s' := s.jobs[k].hail, Step(cfg, s, RunJob(k, around));
    StepKeepsInv(cfg, s, RunJob(k, around));
    RefusedIsSpent(cfg, s, k, around);
    SpentForEver(cfg, s', later, h);
    OverStaysOver(cfg, s', later, h);
  }

  // ------------------------------------------------- a refusal while a choice is pending

  lemma {:induction false} RefusalKeepsQueue(cfg: Config, s: State, h: HailId, user: User, r: HailRequest, k: nat)
    requires Inv(cfg, s) && r.status == Some(DeclinedByTaxi) && k < |s.jobs|
    requires PutHailResult(s, h, user, r).Ok? && PutHailResult(s, h, user, r).value.value.changed
    ensures
      var s1 := Step(cfg, s, PutHail(h, user, r));
      && Inv(cfg, s1) && |s1.hails| == |s.hails| && !TaxiEngaged(s1, s.hails[h].taxi)
      && k < |s1.jobs| && s1.jobs[k] == s.jobs[k]
  {
    RefusalFrees(cfg, s, h, user, r);
    StepKeepsInv(cfg, s, PutHail(h, user, r));
    FreeTaxiIsIdle(Step(cfg, s, PutHail(h, user, r)), s.hails[h].taxi);
  }

  /** A pending choice of an idle taxi becomes a hail when it runs. */
  lemma {:induction false} IdleChoiceIsPlaced(cfg: Config, s: State, k: nat, around: Surroundings)
    requires Inv(cfg, s) && k < |s.jobs| && s.jobs[k].Place? && s.jobs[k].hail < |s.hails|
    requires !TaxiEngaged(s, s.jobs[k].choice)
    ensures !NotPlacedSince(Run(cfg, s, [RunJob(k, around)]), |s.hails|, s.hails[s.jobs[k].hail].session,
                            s.jobs[k].choice)
  {
    PlaceRuns(cfg, s, k, around);
    var s' := Step(cfg, s, RunJob(k, around));
    assert Run(cfg, s, [RunJob(k, around)]) == Run(cfg, s', []) == s';
    assert s'.hails[|s.hails|].taxi == s.jobs[k].choice;
  }

  lemma {:induction false} ChosenTaxiIsAskedAgain(cfg: Config, s: State, h: HailId, user: User, r: HailRequest,
                                                  around: Surroundings) returns (later: seq<Action>)
    requires Inv(cfg, s) && r.status == Some(DeclinedByTaxi)
    requires PutHailResult(s, h, user, r).Ok? && PutHailResult(s, h, user, r).value.value.changed
    requires ChosenAlready(s, s.hails[h].session, s.hails[h].taxi)
    ensures
      var s1 := Step(cfg, s, PutHail(h, user, r));
      !NotPlacedSince(Run(cfg, s1, later), |s.hails|, s.hails[h].session, s.hails[h].taxi)
  {
    var session, t := s.hails[h].session, s.hails[h].taxi;
    var k :| 0 <= k < |s.jobs| && s.jobs[k].Place? && s.hails[s.jobs[k].hail].session == session
             && s.jobs[k].choice == t;
    var s1 := Step(cfg, s, PutHail(h, user, r));
    RefusalKeepsQueue(cfg, s, h, user, r, k);
    StepGrows(cfg, s, PutHail(h, user, r));
    assert SameHail(s.hails[s.jobs[k].hail], s1.hails[s.jobs[k].hail]);
    IdleChoiceIsPlaced(cfg, s1, k, around);
    later := [RunJob(k, around)];
  }

  /**
   After a driver's refusal no later reassignment of the session can pick the
   taxi again, exactly when none that is under way has chosen it already.
   */
  lemma {:induction false} RefusalExcludesExactly(cfg: Config, s: State, h: HailId, user: User, r: HailRequest,
                                                  around: Surroundings)
    requires Inv(cfg, s) && r.status == Some(DeclinedByTaxi)
    requires PutHailResult(s, h, user, r).Ok? && PutHailResult(s, h, user, r).value.value.changed
    ensures
      var s1, session, t := Step(cfg, s, PutHail(h, user, r)), s.hails[h].session, s.hails[h].taxi;
      (forall later: seq<Action> :: NotPlacedSince(Run(cfg, s1, later), |s.hails|, session, t)) <==>
      !ChosenAlready(s, session, t)
  {
    var s1, session, t := Step(cfg, s, PutHail(h, user, r)), s.hails[h].session, s.hails[h].taxi;
    if ChosenAlready(s, session, t) {
      var later := ChosenTaxiIsAskedAgain(cfg, s, h, user, r, around);
      assert !NotPlacedSince(Run(cfg, s1, later), |s.hails|, session, t);
    } else {
      forall later: seq<Action>
        ensures NotPlacedSince(Run(cfg, s1, later), |s.hails|, session, t)
      {
        RefusalFreesAndExcludes(cfg, s, h, user, r, later);
      }
    }
  }

  // ------------------------------------------------- runs

  const AROUND := Surroundings(101.0, Unreachable, [8])
  const RUN_FIRST := RunJob(0, AROUND)

  /** The customer's first driver does not answer. */
  const SENT := Changed(Asked(0, 7), ReceivedByTaxi, None, Handoff, "")
  const UNANSWERED := Changed(SENT, TimeoutTaxi, None, TimedOut, "")
  const PLACED := NewRow(8, Session(2, 0, 0), 5, ReassignedFrom(0), 101.0, None, ReassignedAfter(TimeoutTaxi))

  /** Then a reassignment has chosen the second taxi. */
  const CHOSEN := State([UNANSWERED], THREE_TAXIS[7 := Description(1, Occupied)], [Place(0, 8, 101.0)])

  lemma {:induction false} FirstHailIsSent()
    ensures
      var s := Step(INTERNAL, Step(INTERNAL, State([], THREE_TAXIS, []), Ask(0, 7)), RUN_FIRST);
      s == State([SENT], THREE_TAXIS[7 := Description(1, Answering)],
                 [Timer(0, ReceivedByTaxi, TimeoutTaxi, Occupied)])
  {
  }

  lemma {:induction false} DriverDoesNotAnswer()
    ensures
      var s := State([SENT], THREE_TAXIS[7 := Description(1, Answering)],
                     [Timer(0, ReceivedByTaxi, TimeoutTaxi, Occupied)]);
      Step(INTERNAL, s, RUN_FIRST) == State([UNANSWERED], THREE_TAXIS[7 := Description(1, Occupied)], [Reassign(0)])
  {
  }

  lemma {:induction false} SecondTaxiIsChosen()
    ensures
      var s := State([UNANSWERED], THREE_TAXIS[7 := Description(1, Occupied)], [Reassign(0)]);
      Step(INTERNAL, s, RUN_FIRST) == CHOSEN
  {
    var s := State([UNANSWERED], THREE_TAXIS[7 := Description(1, Occupied)], []);
    assert SessionSize(s.hails, Session(2, 0, 0)) == SessionSize([], Session(2, 0, 0)) + 1;
    assert Contacted(s, Session(2, 0, 0)) == {7};
    assert FirstCandidate(s, [8], {7}) == Some(8);
    assert ReassignResult(INTERNAL, s, 0, [8]) == Ok(8);
  }

  lemma {:induction false} ChoiceIsReached()
    ensures Initial(State([], THREE_TAXIS, []))
    ensures Run(INTERNAL, State([], THREE_TAXIS, []), [Ask(0, 7), RUN_FIRST, RUN_FIRST, RUN_FIRST]) == CHOSEN
  {
    FirstHailIsSent();
    DriverDoesNotAnswer();
    SecondTaxiIsChosen();
    var s0 := State([], THREE_TAXIS, []);
    var s1 := Step(INTERNAL, s0, Ask(0, 7));
    var s2 := Step(INTERNAL, s1, RUN_FIRST);
    var s3 := Step(INTERNAL, s2, RUN_FIRST);
    assert [Ask(0, 7), RUN_FIRST, RUN_FIRST, RUN_FIRST][1..] == [RUN_FIRST, RUN_FIRST, RUN_FIRST];
    assert [RUN_FIRST, RUN_FIRST, RUN_FIRST][1..] == [RUN_FIRST, RUN_FIRST];
    assert [RUN_FIRST, RUN_FIRST][1..] == [RUN_FIRST];
    assert Run(INTERNAL, s3, [RUN_FIRST]) == Run(INTERNAL, CHOSEN, []);
    assert Run(INTERNAL, s2, [RUN_FIRST, RUN_FIRST]) == Run(INTERNAL, s3, [RUN_FIRST]);
    assert Run(INTERNAL, s1, [RUN_FIRST, RUN_FIRST, RUN_FIRST]) == Run(INTERNAL, s2, [RUN_FIRST, RUN_FIRST]);
  }

  /** A hail of some customer on some free taxi, committed while the choice is pending. */
  lemma {:induction false} AskedMeanwhile(customer: nat, taxi: TaxiId)
    requires taxi == 8 || taxi == 9
    ensures
      Step(INTERNAL, CHOSEN, Ask(customer, taxi)) ==
      State([UNANSWERED, Asked(customer, taxi)], CHOSEN.taxis[taxi := Description(OperatorOf(taxi), Answering)],
            [Place(0, 8, 101.0), Send(1)])
  {
  }

  /** Another customer takes the chosen taxi first: the index refuses the insert, and the chain has ended. */
  lemma {:induction false} TakenTaxiEndsTheChain()
    ensures
      var s1 := Step(INTERNAL, CHOSEN, Ask(1, 8));
      var s2 := Step(INTERNAL, s1, RUN_FIRST);
      s2.hails == s1.hails && |s2.hails| == 2 && s2.jobs == [Send(1)] && Spent(s2, 0) && MadeFrom(s2, 0) == {}
  {
    AskedMeanwhile(1, 8);
    var s1 := Step(INTERNAL, CHOSEN, Ask(1, 8));
    var s0 := s1.(jobs := [Send(1)]);
    assert Without(s1.jobs, 0) == [Send(1)];
    assert Active(s0, 1) && s0.hails[1].taxi == 8;
    assert TaxiEngaged(s0, 8);
  }

  /** The same customer hails a third taxi meanwhile: the session has two active hails. */
  lemma {:induction false} SessionGetsTwoActiveHails()
    ensures
      var s := Step(INTERNAL, Step(INTERNAL, CHOSEN, Ask(0, 9)), RUN_FIRST);
      && s.hails == [UNANSWERED, Asked(0, 9), PLACED] && s.hails[1].session == s.hails[2].session
      && Active(s, 1) && Active(s, 2)
  {
  }

  /** In that run the session, with two candidates at most, has three hails. */
  lemma {:induction false} SessionExceedsTheLimit()
    ensures
      var s, session := Step(INTERNAL, Step(INTERNAL, CHOSEN, Ask(0, 9)), RUN_FIRST), Session(2, 0, 0);
      SessionSize(CHOSEN.hails, session) < INTERNAL.candidateLimit < SessionSize(s.hails, session) == 3
  {
    SessionGetsTwoActiveHails();
    var one, two := [UNANSWERED], [UNANSWERED, Asked(0, 9)];
    var three := two + [PLACED];
    assert one[..0] == [] && two[..1] == one && three[..2] == two;
    assert three == [UNANSWERED, Asked(0, 9), PLACED];
    assert SessionSize(one, Session(2, 0, 0)) == 1 && SessionSize(two, Session(2, 0, 0)) == 2;
  }

  /** The same customer hails the chosen taxi and declines again: the session asks that taxi twice. */
  lemma {:induction false} SessionAsksATaxiTwice()
    ensures
      var s1 := Step(INTERNAL, CHOSEN, Ask(0, 8));
      var s2 := Step(INTERNAL, s1, PutHail(1, CLIENT, To(DeclinedByCustomer)));
      var s := Step(INTERNAL, s2, RUN_FIRST);
      && |s.hails| == 3 && s.hails[1].session == s.hails[2].session && s.hails[1].taxi == s.hails[2].taxi == 8
      && s.hails[2] == PLACED
  {
  }

  /** What the driver of the chosen taxi is sent when the same customer hails it meanwhile. */
  const SENT_AGAIN := Changed(Asked(0, 8), ReceivedByTaxi, None, Handoff, "")
  const REFUSED := Changed(SENT_AGAIN, DeclinedByTaxi, Some(5), NoReason, "")

  lemma {:induction false} ChosenDriverIsSent()
    ensures
      Step(INTERNAL, Step(INTERNAL, CHOSEN, Ask(0, 8)), RunJob(1, AROUND)) ==
      State([UNANSWERED, SENT_AGAIN], CHOSEN.taxis[8 := Description(5, Answering)],
            [Place(0, 8, 101.0), Timer(1, ReceivedByTaxi, TimeoutTaxi, Occupied)])
  {
    AskedMeanwhile(0, 8);
  }

  /** The chosen driver has refused, and the choice is still pending. */
  const AFTER_REFUSAL :=
    State([UNANSWERED, REFUSED], CHOSEN.taxis[8 := Description(5, Free)],
          [Place(0, 8, 101.0), Timer(1, ReceivedByTaxi, TimeoutTaxi, Occupied), Reassign(1)])

  lemma {:induction false} ChosenDriverRefuses()
    ensures
      var s := Step(INTERNAL, Step(INTERNAL, CHOSEN, Ask(0, 8)), RunJob(1, AROUND));
      && PutHailResult(s, 1, OTHER_OPERATOR, To(DeclinedByTaxi)) == Ok(Some(Applied(REFUSED, Free, true, false)))
      && Step(INTERNAL, s, PutHail(1, OTHER_OPERATOR, To(DeclinedByTaxi))) == AFTER_REFUSAL
  {
    ChosenDriverIsSent();
  }

  lemma {:induction false} RefusedDriverIsPlaced()
    ensures Step(INTERNAL, AFTER_REFUSAL, RUN_FIRST).hails == [UNANSWERED, REFUSED, PLACED]
  {
    var s0 := AFTER_REFUSAL.(jobs := Without(AFTER_REFUSAL.jobs, 0));
    assert !TaxiEngaged(s0, 8);
    assert ReassignRow(s0, 0, 8, 101.0) == PLACED;
  }

  /**
   The same customer hails the chosen taxi, its driver refuses, and the pending
   choice then asks that driver again.
   */
  lemma {:induction false} RefusedDriverIsAskedAgain()
    ensures
      var s2 := Step(INTERNAL, Step(INTERNAL, CHOSEN, Ask(0, 8)), RunJob(1, AROUND));
      var s3 := Step(INTERNAL, s2, PutHail(1, OTHER_OPERATOR, To(DeclinedByTaxi)));
      && ChosenAlready(s2, Session(2, 0, 0), 8)
      && PutHailResult(s2, 1, OTHER_OPERATOR, To(DeclinedByTaxi)).Ok?
      && Step(INTERNAL, s3, RUN_FIRST).hails == [UNANSWERED, REFUSED, PLACED]
  {
    ChosenDriverIsSent();
    var s2 := Step(INTERNAL, Step(INTERNAL, CHOSEN, Ask(0, 8)), RunJob(1, AROUND));
    assert s2.jobs[0] == Place(0, 8, 101.0) && s2.hails[0].session == Session(2, 0, 0);
    ChosenDriverRefuses();
    RefusedDriverIsPlaced();
  }

  /** The operator takes the chosen taxi off the road meanwhile: it is hailed, and answering, all the same. */
  lemma {:induction false} OffIsOverwritten()
    ensures
      var s1 := Step(INTERNAL, CHOSEN, PutTaxi(8, OTHER_OPERATOR, Off, false));
      var s2 := Step(INTERNAL, s1, RUN_FIRST);
      && 8 in s1.taxis && s1.taxis[8].status == Off
      && s2.hails == [UNANSWERED, PLACED] && 8 in s2.taxis && s2.taxis[8].status == Answering
  {
  }
}
