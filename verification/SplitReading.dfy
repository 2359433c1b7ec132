/**
 The reading of a reassignment as it really runs: four queries, each of which sees
 what is committed when it runs, under the locks on the hails that the session had
 at the beginning.
 */
module SplitReading {
  import opened HailTypes
  import opened HailMachine
  import opened Dispatch
  import opened DispatchInvariant
  import opened DispatchHistory
  import opened DispatchOutcomes
  import opened DispatchPlacement

  /** The last query that has run: is there an active hail, how many are there, which taxis did they use? */
  datatype Stage = Checked | Counted | Collected(since: nat, contacted: set<TaxiId>)

  /** When the reading began, how many hails there were at its first query, and how far it is. */
  datatype Reading = Reading(now: real, since: nat, stage: Stage)

  /** The job of a reading stays pending until it ends. */
  datatype ReadingState = ReadingState(core: State, readings: map<HailId, Reading>)

  datatype ReadingAction =
    | Whole(action: Action)
    | Check(index: nat, now: real)
    | Count(index: nat)
    | Collect(index: nat)
    | Choose(index: nat, nearby: seq<TaxiId>)

  /** A reading of the session is under way, and holds its locks. */
  predicate Locked(s: ReadingState, session: Session) {
    exists h | h in s.readings :: h < |s.core.hails| && s.core.hails[h].session == session
  }

  /** The pending reassignment at this place. */
  predicate IsReassign(s: State, k: nat) {
    k < |s.jobs| && s.jobs[k].Reassign? && s.jobs[k].hail < |s.hails|
  }

  predicate AtStage(s: ReadingState, k: nat) {
    IsReassign(s.core, k) && s.core.jobs[k].hail in s.readings
  }

  predicate Enabled(s: ReadingState, a: ReadingAction) {
    match a
    case Whole(action) =>
      action.RunJob? && IsReassign(s.core, action.index) ==>
        !Locked(s, s.core.hails[s.core.jobs[action.index].hail].session)
    case Check(k, _) =>
      && IsReassign(s.core, k) && !Waits(s.core, s.core.jobs[k])
      && !Locked(s, s.core.hails[s.core.jobs[k].hail].session)
    case Count(k) => AtStage(s, k) && s.readings[s.core.jobs[k].hail].stage.Checked?
    case Collect(k) => AtStage(s, k) && s.readings[s.core.jobs[k].hail].stage.Counted?
    case Choose(k, _) => AtStage(s, k) && s.readings[s.core.jobs[k].hail].stage.Collected?
  }

  /** The reassignment ends without a choice, or with one. */
  function End(s: ReadingState, k: nat, more: seq<Job>): ReadingState
    requires k < |s.core.jobs|
  {
    ReadingState(s.core.(jobs := Without(s.core.jobs, k) + more), s.readings - {s.core.jobs[k].hail})
  }

  function Advance(s: ReadingState, h: HailId, stage: Stage): ReadingState
    requires h in s.readings
  {
    s.(readings := s.readings[h := s.readings[h].(stage := stage)])
  }

  /** The locks, the source's status and the first query. */
  function CheckStep(s: ReadingState, k: nat, now: real): ReadingState
    requires IsReassign(s.core, k)
  {
    var h := s.core.jobs[k].hail;
    if !Reassignable(s.core.hails[h].status) || OtherActiveInSession(s.core, h) then End(s, k, [])
    else s.(readings := s.readings[h := Reading(now, |s.core.hails|, Checked)])
  }

  function CountStep(cfg: Config, s: ReadingState, k: nat): ReadingState
    requires AtStage(s, k)
  {
    var h := s.core.jobs[k].hail;
    if SessionSize(s.core.hails, s.core.hails[h].session) >= cfg.candidateLimit then End(s, k, [])
    else Advance(s, h, Counted)
  }

  function CollectStep(s: ReadingState, k: nat): ReadingState
    requires AtStage(s, k)
  {
    var h := s.core.jobs[k].hail;
    Advance(s, h, Collected(|s.core.hails|, Contacted(s.core, s.core.hails[h].session)))
  }

  function ChooseStep(s: ReadingState, k: nat, nearby: seq<TaxiId>): ReadingState
    requires AtStage(s, k) && s.readings[s.core.jobs[k].hail].stage.Collected?
  {
    var h := s.core.jobs[k].hail;
    var candidate := FirstCandidate(s.core, nearby, s.readings[h].stage.contacted);
    End(s, k, if candidate.None? then [] else [Place(h, candidate.value, s.readings[h].now)])
  }

  function ReadingStep(cfg: Config, s: ReadingState, a: ReadingAction): (s': ReadingState)
    requires Keys(s.core)
    ensures Keys(s'.core)
  {
    if !Enabled(s, a) then s
    else match a
      case Whole(action) => s.(core := Step(cfg, s.core, action))
      case Check(k, now) => CheckStep(s, k, now)
      case Count(k) => CountStep(cfg, s, k)
      case Collect(k) => CollectStep(s, k)
      case Choose(k, nearby) => ChooseStep(s, k, nearby)
  }

  // -------------------------------------------- what holds while a reading is under way

  /** The session's hails at the first query are over, and the customer asked for all later ones. */
  ghost predicate ReadingFits(cfg: Config, s: State, h: HailId, r: Reading) {
    && h < r.since <= |s.hails| && Reassign(h) in s.jobs
    && var session := s.hails[h].session;
    && !Placing(s, session)
    && (forall i | 0 <= i < r.since && s.hails[i].session == session :: Terminal(s.hails[i].status))
    && OnlyRequestsSince(s.hails, r.since, session)
    && (!r.stage.Checked? ==> SessionSize(s.hails, session) < cfg.candidateLimit + RequestedAfter(s.hails, session, h))
    && (r.stage.Collected? ==>
          && r.since <= r.stage.since <= |s.hails|
          && forall i | 0 <= i < r.stage.since && s.hails[i].session == session ::
               s.hails[i].taxi in r.stage.contacted)
  }

  /** Readings fit, and a session has one at most. */
  ghost predicate ReadingsFit(cfg: Config, s: State, readings: map<HailId, Reading>) {
    && (forall h | h in readings :: ReadingFits(cfg, s, h, readings[h]))
    && (forall g, h | g in readings && h in readings && g != h :: s.hails[g].session != s.hails[h].session)
  }

  ghost predicate ReadingInv(cfg: Config, s: ReadingState) {
    Inv(cfg, s.core) && ReadingsFit(cfg, s.core, s.readings)
  }

  /** What a step may do to the choices and the reassignments that are pending. */
  ghost predicate OthersPend(s: State, s': State, k: nat) {
    && (forall job | job in s'.jobs && job.Place? :: job in s.jobs || (IsReassign(s, k) && job.hail == s.jobs[k].hail))
    && (forall job | job in s.jobs && job.Reassign? :: job in s'.jobs || (IsReassign(s, k) && job == s.jobs[k]))
  }

  lemma {:induction false} JobLeavesOthers(cfg: Config, s: State, k: nat, around: Surroundings)
    requires Keys(s) && k < |s.jobs| && !Waits(s, s.jobs[k])
    ensures OthersPend(s, Step(cfg, s, RunJob(k, around)), k)
  {
    WithoutIsSubsequence(s.jobs, k);
  }

  lemma {:induction false} RequestLeavesOthers(cfg: Config, s: State, a: Action, k: nat)
    requires Keys(s) && !a.RunJob?
    ensures OthersPend(s, Step(cfg, s, a), k)
  {
  }

  /** A session in which no choice is pending gets no hail but from its customer. */
  lemma {:induction false} StepOnlyRequests(cfg: Config, s: State, a: Action, session: Session)
    requires Inv(cfg, s) && !Placing(s, session)
    ensures OnlyRequestsSince(Step(cfg, s, a).hails, |s.hails|, session)
  {
    if a.RunJob? && a.index < |s.jobs| && s.jobs[a.index].Place? {
      PlaceRuns(cfg, s, a.index, a.around);
    }
  }

  /** What the customer asked for after a hail: up to a moment, and since. */
  lemma {:induction false} RequestedSplits(before: seq<HailRow>, after: seq<HailRow>, session: Session, h: HailId)
    requires h < |before| <= |after|
    requires forall i | 0 <= i < |before| ::
               after[i].session == before[i].session && after[i].origin == before[i].origin
    ensures RequestedAfter(after, session, h) ==
            RequestedAfter(before, session, h) + RequestedAfter(after, session, |before| - 1)
    decreases |after|
  {
    var n := |after| - 1;
    if |before| <= n {
      RequestedSplits(before, after[..n], session, h);
    } else {
      SameRequests(before, after, session, h);
      NoneAfterLast(after, session, n);
    }
  }

  lemma {:induction false} SameRequests(a: seq<HailRow>, b: seq<HailRow>, session: Session, h: HailId)
    requires |a| == |b| && forall i | 0 <= i < |a| :: b[i].session == a[i].session && b[i].origin == a[i].origin
    ensures RequestedAfter(b, session, h) == RequestedAfter(a, session, h)
  {
    if a != [] {
      SameRequests(a[..|a| - 1], b[..|b| - 1], session, h);
    }
  }

  lemma {:induction false} OverAfterStep(cfg: Config, s: State, a: Action, i: HailId)
    requires Inv(cfg, s) && i < |s.hails| && Terminal(s.hails[i].status)
    ensures i < |Step(cfg, s, a).hails| && Step(cfg, s, a).hails[i] == s.hails[i]
  {
    OverStaysOver(cfg, s, [a], i);
    assert Run(cfg, s, [a]) == Run(cfg, Step(cfg, s, a), []);
  }

  /** The hails of the session after a step that only its customer can have added to. */
  lemma {:induction false} RoomAfterStep(cfg: Config, s: State, s': State, h: HailId)
    requires Grows(s, s') && h < |s.hails| && OnlyRequestsSince(s'.hails, |s.hails|, s.hails[h].session)
    requires SessionSize(s.hails, s.hails[h].session)
             < cfg.candidateLimit + RequestedAfter(s.hails, s.hails[h].session, h)
    ensures SessionSize(s'.hails, s.hails[h].session)
            < cfg.candidateLimit + RequestedAfter(s'.hails, s.hails[h].session, h)
  {
    forall i | 0 <= i < |s.hails|
      ensures s'.hails[i].session == s.hails[i].session && s'.hails[i].origin == s.hails[i].origin
    {
      assert SameHail(s.hails[i], s'.hails[i]);
    }
    SizeSince(s.hails, s'.hails, s.hails[h].session);
    RequestedSplits(s.hails, s'.hails, s.hails[h].session, h);
  }

  lemma {:induction false} StepKeepsReading(cfg: Config, s: State, a: Action, h: HailId, r: Reading)
    requires Inv(cfg, s) && ReadingFits(cfg, s, h, r)
    requires a.RunJob? && IsReassign(s, a.index) ==> s.hails[s.jobs[a.index].hail].session != s.hails[h].session
    ensures ReadingFits(cfg, Step(cfg, s, a), h, r)
  {
    var s', session := Step(cfg, s, a), s.hails[h].session;
    StepGrows(cfg, s, a);
    StepOnlyRequests(cfg, s, a, session);
    StepKeepsLocks(cfg, s, a, h);
    assert SameHail(s.hails[h], s'.hails[h]);
    forall i | 0 <= i < r.since && s'.hails[i].session == session
      ensures Terminal(s'.hails[i].status)
    {
      assert SameHail(s.hails[i], s'.hails[i]);
      OverAfterStep(cfg, s, a, i);
    }
    forall i | r.since <= i < |s'.hails| && s'.hails[i].session == session
      ensures s'.hails[i].origin.Requested?
    {
      assert i < |s.hails| ==> SameHail(s.hails[i], s'.hails[i]);
    }
    if !r.stage.Checked? {
      RoomAfterStep(cfg, s, s', h);
    }
    if r.stage.Collected? {
      forall i | 0 <= i < r.stage.since && s'.hails[i].session == session
        ensures s'.hails[i].taxi in r.stage.contacted
      {
        assert SameHail(s.hails[i], s'.hails[i]);
      }
    }
  }

  lemma {:induction false} NoChoiceAppears(s: State, s': State, session: Session, k: nat)
    requires Keys(s) && Grows(s, s') && OthersPend(s, s', k) && !Placing(s, session)
    requires IsReassign(s, k) ==> s.hails[s.jobs[k].hail].session != session
    ensures !Placing(s', session)
  {
    forall i | 0 <= i < |s'.jobs| && s'.jobs[i].Place? && s'.jobs[i].hail < |s'.hails|
      ensures s'.hails[s'.jobs[i].hail].session != session
    {
      var job := s'.jobs[i];
      assert job in s'.jobs;
      if job in s.jobs {
        var j :| 0 <= j < |s.jobs| && s.jobs[j] == job;
        assert s.jobs[j].hail < |s.hails|;
      }
      assert SameHail(s.hails[job.hail], s'.hails[job.hail]);
    }
  }

  /** The reassignment of a reading stays pending, and no choice of its session appears. */
  lemma {:induction false} StepKeepsLocks(cfg: Config, s: State, a: Action, h: HailId)
    requires Inv(cfg, s) && h < |s.hails| && Reassign(h) in s.jobs && !Placing(s, s.hails[h].session)
    requires a.RunJob? && IsReassign(s, a.index) ==> s.hails[s.jobs[a.index].hail].session != s.hails[h].session
    ensures Reassign(h) in Step(cfg, s, a).jobs && !Placing(Step(cfg, s, a), s.hails[h].session)
  {
    StepGrows(cfg, s, a);
    if !a.RunJob? {
      RequestLeavesOthers(cfg, s, a, |s.jobs|);
      NoChoiceAppears(s, Step(cfg, s, a), s.hails[h].session, |s.jobs|);
    } else if a.index < |s.jobs| && !Waits(s, s.jobs[a.index]) {
      JobLeavesOthers(cfg, s, a.index, a.around);
      NoChoiceAppears(s, Step(cfg, s, a), s.hails[h].session, a.index);
    }
  }

  // -------------------------------------------- every interleaving keeps it

  lemma {:induction false} WholeKeepsReadings(cfg: Config, s: State, readings: map<HailId, Reading>, a: Action)
    requires Inv(cfg, s) && ReadingsFit(cfg, s, readings)
    requires a.RunJob? && IsReassign(s, a.index) ==>
               forall h | h in readings :: s.hails[s.jobs[a.index].hail].session != s.hails[h].session
    ensures ReadingsFit(cfg, Step(cfg, s, a), readings)
  {
    var s' := Step(cfg, s, a);
    forall h | h in readings
      ensures ReadingFits(cfg, s', h, readings[h]) && s'.hails[h].session == s.hails[h].session
    {
      StepKeepsReading(cfg, s, a, h, readings[h]);
      StepGrows(cfg, s, a);
      assert SameHail(s.hails[h], s'.hails[h]);
    }
  }

  lemma {:induction false} WholeKeepsInv(cfg: Config, s: ReadingState, action: Action)
    requires ReadingInv(cfg, s) && Enabled(s, Whole(action))
    ensures ReadingInv(cfg, s.(core := Step(cfg, s.core, action)))
  {
    StepKeepsInv(cfg, s.core, action);
    WholeKeepsReadings(cfg, s.core, s.readings, action);
  }

  /** A reading outlasts the end of another session's. */
  lemma {:induction false} EndKeepsReading(cfg: Config, s: State, k: nat, more: seq<Job>, g: HailId, r: Reading)
    requires Keys(s) && IsReassign(s, k) && ReadingFits(cfg, s, g, r)
    requires s.hails[g].session != s.hails[s.jobs[k].hail].session
    requires forall job | job in more :: job.Place? && job.hail == s.jobs[k].hail
    ensures ReadingFits(cfg, s.(jobs := Without(s.jobs, k) + more), g, r)
  {
    var s' := s.(jobs := Without(s.jobs, k) + more);
    WithoutIsSubsequence(s.jobs, k);
    assert Reassign(g) in Without(s.jobs, k);
    forall i | 0 <= i < |s'.jobs| && s'.jobs[i].Place? && s'.jobs[i].hail < |s.hails|
      ensures s.hails[s'.jobs[i].hail].session != s.hails[g].session
    {
      var job := s'.jobs[i];
      if job in Without(s.jobs, k) {
        var j :| 0 <= j < |s.jobs| && s.jobs[j] == job;
      } else {
        assert job in more;
      }
    }
  }

  /** No other reading than that of the job's own hail is of its session. */
  ghost predicate Alone(s: ReadingState, k: nat)
    requires IsReassign(s.core, k)
  {
    forall g | g in s.readings && g != s.core.jobs[k].hail ::
      g < |s.core.hails| ==> s.core.hails[g].session != s.core.hails[s.core.jobs[k].hail].session
  }

  /** When a reassignment ends, with a choice or without, the readings of other sessions go on. */
  lemma {:induction false} EndKeepsReadings(cfg: Config, s: ReadingState, k: nat, more: seq<Job>)
    requires Keys(s.core) && ReadingsFit(cfg, s.core, s.readings) && IsReassign(s.core, k) && Alone(s, k)
    requires forall job | job in more :: job.Place? && job.hail == s.core.jobs[k].hail
    ensures ReadingsFit(cfg, End(s, k, more).core, End(s, k, more).readings)
  {
    var s' := End(s, k, more);
    forall g | g in s'.readings
      ensures ReadingFits(cfg, s'.core, g, s'.readings[g])
    {
      assert g in s.readings && ReadingFits(cfg, s.core, g, s.readings[g]);
      EndKeepsReading(cfg, s.core, k, more, g, s.readings[g]);
    }
  }

  lemma {:induction false} EndWithoutChoice(cfg: Config, s: ReadingState, k: nat)
    requires ReadingInv(cfg, s) && IsReassign(s.core, k) && Alone(s, k)
    ensures ReadingInv(cfg, End(s, k, []))
  {
    DequeueKeepsInv(cfg, s.core, k);
    assert Without(s.core.jobs, k) + [] == Without(s.core.jobs, k);
    EndKeepsReadings(cfg, s, k, []);
  }

  lemma {:induction false} ReadingIsAlone(cfg: Config, s: ReadingState, k: nat)
    requires ReadingsFit(cfg, s.core, s.readings) && IsReassign(s.core, k)
    requires s.core.jobs[k].hail in s.readings || !Locked(s, s.core.hails[s.core.jobs[k].hail].session)
    ensures Alone(s, k)
  {
  }

  /** A reading that begins or goes on leaves the others as they are. */
  lemma {:induction false} OneReadingMore(cfg: Config, s: ReadingState, k: nat, r: Reading)
    requires ReadingsFit(cfg, s.core, s.readings) && IsReassign(s.core, k) && Alone(s, k)
    requires ReadingFits(cfg, s.core, s.core.jobs[k].hail, r)
    ensures ReadingsFit(cfg, s.core, s.readings[s.core.jobs[k].hail := r])
  {
    forall g | g in s.readings
      ensures g < |s.core.hails|
    {
      assert ReadingFits(cfg, s.core, g, s.readings[g]);
    }
  }

  /** A reading begins on a session whose hails are all over. */
  lemma {:induction false} CheckFits(cfg: Config, s: State, k: nat, now: real)
    requires IsReassign(s, k) && !Waits(s, s.jobs[k])
    requires Reassignable(s.hails[s.jobs[k].hail].status) && !OtherActiveInSession(s, s.jobs[k].hail)
    ensures ReadingFits(cfg, s, s.jobs[k].hail, Reading(now, |s.hails|, Checked))
  {
    var h := s.jobs[k].hail;
    forall i | 0 <= i < |s.hails| && s.hails[i].session == s.hails[h].session
      ensures Terminal(s.hails[i].status)
    {
      assert i != h ==> !Active(s, i);
    }
  }

  lemma {:induction false} CheckKeepsInv(cfg: Config, s: ReadingState, k: nat, now: real)
    requires ReadingInv(cfg, s) && IsReassign(s.core, k) && !Waits(s.core, s.core.jobs[k])
    requires !Locked(s, s.core.hails[s.core.jobs[k].hail].session)
    ensures ReadingInv(cfg, CheckStep(s, k, now))
  {
    var h := s.core.jobs[k].hail;
    ReadingIsAlone(cfg, s, k);
    if !Reassignable(s.core.hails[h].status) || OtherActiveInSession(s.core, h) {
      EndWithoutChoice(cfg, s, k);
    } else {
      CheckFits(cfg, s.core, k, now);
      OneReadingMore(cfg, s, k, Reading(now, |s.core.hails|, Checked));
    }
  }

  lemma {:induction false} CountFits(cfg: Config, s: State, h: HailId, r: Reading)
    requires ReadingFits(cfg, s, h, r) && r.stage.Checked?
    requires SessionSize(s.hails, s.hails[h].session) < cfg.candidateLimit
    ensures ReadingFits(cfg, s, h, r.(stage := Counted))
  {
  }

  lemma {:induction false} CountedFits(cfg: Config, s: ReadingState, k: nat)
    requires ReadingsFit(cfg, s.core, s.readings) && AtStage(s, k) && s.readings[s.core.jobs[k].hail].stage.Checked?
    requires SessionSize(s.core.hails, s.core.hails[s.core.jobs[k].hail].session) < cfg.candidateLimit
    ensures ReadingsFit(cfg, s.core, Advance(s, s.core.jobs[k].hail, Counted).readings)
  {
    var h := s.core.jobs[k].hail;
    ReadingIsAlone(cfg, s, k);
    CountFits(cfg, s.core, h, s.readings[h]);
    OneReadingMore(cfg, s, k, s.readings[h].(stage := Counted));
  }

  lemma {:induction false} CountKeepsInv(cfg: Config, s: ReadingState, k: nat)
    requires ReadingInv(cfg, s) && AtStage(s, k) && s.readings[s.core.jobs[k].hail].stage.Checked?
    ensures ReadingInv(cfg, CountStep(cfg, s, k))
  {
    ReadingIsAlone(cfg, s, k);
    EndWithoutChoice(cfg, s, k);
    if SessionSize(s.core.hails, s.core.hails[s.core.jobs[k].hail].session) < cfg.candidateLimit {
      CountedFits(cfg, s, k);
    }
  }

  lemma {:induction false} CollectFits(cfg: Config, s: State, h: HailId, r: Reading)
    requires ReadingFits(cfg, s, h, r) && r.stage.Counted?
    ensures ReadingFits(cfg, s, h, r.(stage := Collected(|s.hails|, Contacted(s, s.hails[h].session))))
  {
  }

  lemma {:induction false} CollectKeepsInv(cfg: Config, s: ReadingState, k: nat)
    requires ReadingInv(cfg, s) && AtStage(s, k) && s.readings[s.core.jobs[k].hail].stage.Counted?
    ensures ReadingInv(cfg, CollectStep(s, k))
  {
    var h := s.core.jobs[k].hail;
    ReadingIsAlone(cfg, s, k);
    CollectFits(cfg, s.core, h, s.readings[h]);
    OneReadingMore(cfg, s, k, s.readings[h].(stage := Collected(|s.core.hails|,
                                                                Contacted(s.core, s.core.hails[h].session))));
  }

  /** What is chosen from a reading fits, whatever the customer has asked for since its queries. */
  lemma {:induction false} ChoiceFitsReading(cfg: Config, s: State, h: HailId, r: Reading, nearby: seq<TaxiId>)
    requires ReadingFits(cfg, s, h, r) && r.stage.Collected?
    requires FirstCandidate(s, nearby, r.stage.contacted).Some?
    ensures UsedSince(s, |s.hails|, s.hails[h].session, h, FirstCandidate(s, nearby, r.stage.contacted).value)
  {
  }

  lemma {:induction false} ChosenKeepsInv(cfg: Config, s: State, k: nat, r: Reading, nearby: seq<TaxiId>)
    requires Inv(cfg, s) && IsReassign(s, k) && ReadingFits(cfg, s, s.jobs[k].hail, r) && r.stage.Collected?
    requires FirstCandidate(s, nearby, r.stage.contacted).Some?
    ensures
      var choice := FirstCandidate(s, nearby, r.stage.contacted).value;
      Inv(cfg, s.(jobs := Without(s.jobs, k) + [Place(s.jobs[k].hail, choice, r.now)]))
  {
    var h, s0 := s.jobs[k].hail, s.(jobs := Without(s.jobs, k));
    var job := Place(h, FirstCandidate(s, nearby, r.stage.contacted).value, r.now);
    DequeueKeepsInv(cfg, s, k);
    WithoutIsSubsequence(s.jobs, k);
    PendingIsUnused(cfg, s, h);
    ChoiceFitsReading(cfg, s, h, r, nearby);
    assert PlacementFits(cfg, s0, job);
    EnqueueKeepsInv(cfg, s0, job);
  }

  lemma {:induction false} ChooseKeepsInv(cfg: Config, s: ReadingState, k: nat, nearby: seq<TaxiId>)
    requires ReadingInv(cfg, s) && AtStage(s, k) && s.readings[s.core.jobs[k].hail].stage.Collected?
    ensures ReadingInv(cfg, ChooseStep(s, k, nearby))
  {
    var h := s.core.jobs[k].hail;
    var candidate := FirstCandidate(s.core, nearby, s.readings[h].stage.contacted);
    ReadingIsAlone(cfg, s, k);
    if candidate.None? {
      EndWithoutChoice(cfg, s, k);
    } else {
      var more := [Place(h, candidate.value, s.readings[h].now)];
      ChosenKeepsInv(cfg, s.core, k, s.readings[h], nearby);
      EndKeepsReadings(cfg, s, k, more);
    }
  }

  lemma {:induction false} ReadingStepKeepsInv(cfg: Config, s: ReadingState, a: ReadingAction)
    requires ReadingInv(cfg, s)
    ensures ReadingInv(cfg, ReadingStep(cfg, s, a))
  {
    if Enabled(s, a) {
      match a
      case Whole(action) => WholeKeepsInv(cfg, s, action);
      case Check(k, now) => CheckKeepsInv(cfg, s, k, now);
      case Count(k) => CountKeepsInv(cfg, s, k);
      case Collect(k) => CollectKeepsInv(cfg, s, k);
      case Choose(k, nearby) => ChooseKeepsInv(cfg, s, k, nearby);
    }
  }

  function ReadingRun(cfg: Config, s: ReadingState, actions: seq<ReadingAction>): (s': ReadingState)
    requires Keys(s.core)
    ensures Keys(s'.core)
    decreases |actions|
  {
    if actions == [] then s else ReadingRun(cfg, ReadingStep(cfg, s, actions[0]), actions[1..])
  }

  /** However the queries of any number of reassignments fall between other steps, the invariant holds. */
  lemma {:induction false} EveryReadingKeepsInv(cfg: Config, s: ReadingState, actions: seq<ReadingAction>)
    requires ReadingInv(cfg, s)
    ensures ReadingInv(cfg, ReadingRun(cfg, s, actions))
    decreases |actions|
  {
    if actions != [] {
      ReadingStepKeepsInv(cfg, s, actions[0]);
      EveryReadingKeepsInv(cfg, ReadingStep(cfg, s, actions[0]), actions[1..]);
    }
  }

  // -------------------------------------------- what the choice is worth

  /**
   What is chosen is what one reading at that moment could have chosen exactly when
   the customer has not meanwhile asked for a hail that is active, for that taxi, or
   for as many hails as the limit, each since the query that looked for it.
   */
  lemma {:induction false} ChoiceIsFreshExactly(cfg: Config, s: State, h: HailId, r: Reading, nearby: seq<TaxiId>)
    requires Inv(cfg, s) && ReadingFits(cfg, s, h, r) && r.stage.Collected?
    requires FirstCandidate(s, nearby, r.stage.contacted).Some?
    ensures
      var choice, session := FirstCandidate(s, nearby, r.stage.contacted).value, s.hails[h].session;
      FreshChoice(cfg, s, h, choice) <==>
      && !ActiveAskedSince(s, r.since, session)
      && !TaxiAskedSince(s, r.stage.since, session, choice)
      && SessionSize(s.hails, session) < cfg.candidateLimit
  {
    var choice, session := FirstCandidate(s, nearby, r.stage.contacted).value, s.hails[h].session;
    FreeTaxiIsIdle(s, choice);
    forall i | 0 <= i < |s.hails| && s.hails[i].session == session
      ensures Active(s, i) <==> r.since <= i && s.hails[i].origin.Requested? && Active(s, i)
      ensures s.hails[i].taxi == choice <==>
              r.stage.since <= i && s.hails[i].origin.Requested? && s.hails[i].taxi == choice
    {
    }
  }

  /** The reading ends with a choice, which is then pending. */
  function Chosen(s: State, k: nat, r: Reading, nearby: seq<TaxiId>): (s': State)
    requires Keys(s) && IsReassign(s, k) && r.stage.Collected?
    requires FirstCandidate(s, nearby, r.stage.contacted).Some?
    ensures Keys(s')
  {
    var choice := FirstCandidate(s, nearby, r.stage.contacted).value;
    s.(jobs := Without(s.jobs, k) + [Place(s.jobs[k].hail, choice, r.now)])
  }

  /** From the first query to the insert, only the customer adds hails to the session. */
  lemma {:induction false} OnlyRequestsSinceFirst(cfg: Config, s: State, k: nat, r: Reading, nearby: seq<TaxiId>,
                                                  between: seq<Action>, job: Job)
    requires Inv(cfg, s) && IsReassign(s, k) && ReadingFits(cfg, s, s.jobs[k].hail, r) && r.stage.Collected?
    requires FirstCandidate(s, nearby, r.stage.contacted).Some? && Inv(cfg, Chosen(s, k, r, nearby))
    requires job.Place? && job.hail == s.jobs[k].hail && StaysPending(cfg, Chosen(s, k, r, nearby), between, job)
    ensures
      var s1, session := Run(cfg, Chosen(s, k, r, nearby), between), s.hails[job.hail].session;
      && Grows(s, s1) && OnlyRequestsSince(s1.hails, r.since, session)
      && (forall i | 0 <= i < r.since && s1.hails[i].session == session :: !Active(s1, i))
  {
    var s0, session := Chosen(s, k, r, nearby), s.hails[job.hail].session;
    var s1 := Run(cfg, s0, between);
    RunWhilePending(cfg, s0, between, job);
    RunGrows(cfg, s0, between);
    forall i | 0 <= i < |s1.hails| && s1.hails[i].session == session
      ensures i >= r.since ==> s1.hails[i].origin.Requested?
      ensures i < r.since ==> !Active(s1, i)
    {
      if i < |s.hails| {
        assert SameHail(s.hails[i], s1.hails[i]);
        if i < r.since {
          OverStaysOver(cfg, s0, between, i);
        }
      }
    }
  }

  /**
   The hail that is inserted after four queries and a wait joins another active
   hail of its session, repeats a taxi of it, or exceeds the limit exactly when the
   customer asked for a hail still active since the first query, for that taxi since
   the third, or for as many hails as make up the limit.
   */
  lemma {:induction false} PlacedAfterReadingExactly(cfg: Config, s: State, k: nat, r: Reading, nearby: seq<TaxiId>,
                                                     between: seq<Action>, j: nat, around: Surroundings)
    requires Inv(cfg, s) && IsReassign(s, k) && ReadingFits(cfg, s, s.jobs[k].hail, r) && r.stage.Collected?
    requires FirstCandidate(s, nearby, r.stage.contacted).Some?
    requires
      var s0, job := Chosen(s, k, r, nearby), Chosen(s, k, r, nearby).jobs[|s.jobs| - 1];
      && StaysPending(cfg, s0, between, job)
      && j < |Run(cfg, s0, between).jobs| && Run(cfg, s0, between).jobs[j] == job
      && job.Place? && !TakenSince(Run(cfg, s0, between), |s.hails|, job.choice)
    ensures
      var h, choice := s.jobs[k].hail, FirstCandidate(s, nearby, r.stage.contacted).value;
      var s1, session := Run(cfg, Chosen(s, k, r, nearby), between), s.hails[h].session;
      var s2 := Step(cfg, s1, RunJob(j, around));
      && |s.hails| <= |s1.hails| && h < |s1.hails| && Placed(s1, s2, Place(h, choice, r.now))
      && (ActiveInSession(s1, session) <==> ActiveAskedSince(s1, r.since, session))
      && (choice in Contacted(s1, session) <==> TaxiAskedSince(s1, r.stage.since, session, choice))
      && (SessionSize(s2.hails, session) <= cfg.candidateLimit <==>
            SessionSize(s.hails, session) + RequestedAfter(s1.hails, session, |s.hails| - 1) < cfg.candidateLimit)
  {
    var h, choice := s.jobs[k].hail, FirstCandidate(s, nearby, r.stage.contacted).value;
    var s0, job, session := Chosen(s, k, r, nearby), Place(h, choice, r.now), s.hails[h].session;
    var s1 := Run(cfg, s0, between);
    ChosenIsPending(cfg, s, k, r, nearby);
    PlacedAndCounted(cfg, s0, job, between, j, around);
    OnlyRequestsSinceFirst(cfg, s, k, r, nearby, between, job);
    ActiveSinceFirst(s1, r.since, session);
    ContactedSinceThird(s, s1, h, r, choice);
  }

  lemma {:induction false} ChosenIsPending(cfg: Config, s: State, k: nat, r: Reading, nearby: seq<TaxiId>)
    requires Inv(cfg, s) && IsReassign(s, k) && ReadingFits(cfg, s, s.jobs[k].hail, r) && r.stage.Collected?
    requires FirstCandidate(s, nearby, r.stage.contacted).Some?
    ensures
      var s0, choice := Chosen(s, k, r, nearby), FirstCandidate(s, nearby, r.stage.contacted).value;
      && Inv(cfg, s0) && !TaxiEngaged(s0, choice) && s0.hails == s.hails
      && |s0.jobs| == |s.jobs| && s0.jobs[|s.jobs| - 1] == Place(s.jobs[k].hail, choice, r.now)
  {
    WithoutIsSubsequence(s.jobs, k);
    ChosenKeepsInv(cfg, s, k, r, nearby);
    FreeTaxiIsIdle(Chosen(s, k, r, nearby), FirstCandidate(s, nearby, r.stage.contacted).value);
  }

  lemma {:induction false} PlacedAndCounted(cfg: Config, s: State, job: Job, between: seq<Action>, j: nat,
                                            around: Surroundings)
    requires Inv(cfg, s) && job.Place? && StaysPending(cfg, s, between, job) && job.hail < |s.hails|
    requires !TaxiEngaged(s, job.choice)
    requires j < |Run(cfg, s, between).jobs| && Run(cfg, s, between).jobs[j] == job
    requires !TakenSince(Run(cfg, s, between), |s.hails|, job.choice)
    ensures
      var s1, session := Run(cfg, s, between), s.hails[job.hail].session;
      var s2 := Step(cfg, s1, RunJob(j, around));
      && |s.hails| <= |s1.hails| && job.hail < |s1.hails| && Placed(s1, s2, job)
      && (SessionSize(s2.hails, session) <= cfg.candidateLimit <==>
            SessionSize(s.hails, session) + RequestedAfter(s1.hails, session, |s.hails| - 1) < cfg.candidateLimit)
  {
    ChoiceIsPlaced(cfg, s, job, between, j, around);
    SizeSinceReading(cfg, s, job, between);
  }

  lemma {:induction false} ActiveSinceFirst(s: State, n: nat, session: Session)
    requires OnlyRequestsSince(s.hails, n, session)
    requires forall i | 0 <= i < n && i < |s.hails| && s.hails[i].session == session :: !Active(s, i)
    ensures ActiveInSession(s, session) <==> ActiveAskedSince(s, n, session)
  {
  }

  lemma {:induction false} ContactedSinceThird(s: State, s1: State, h: HailId, r: Reading, choice: TaxiId)
    requires Grows(s, s1) && h < |s.hails| && r.stage.Collected? && r.since <= r.stage.since <= |s.hails|
    requires OnlyRequestsSince(s1.hails, r.since, s.hails[h].session) && choice !in r.stage.contacted
    requires forall i | 0 <= i < r.stage.since && s.hails[i].session == s.hails[h].session ::
               s.hails[i].taxi in r.stage.contacted
    ensures choice in Contacted(s1, s.hails[h].session) <==>
            TaxiAskedSince(s1, r.stage.since, s.hails[h].session, choice)
  {
    forall i | 0 <= i < r.stage.since && s1.hails[i].session == s.hails[h].session
      ensures s1.hails[i].taxi != choice
    {
      assert SameHail(s.hails[i], s1.hails[i]);
    }
  }

  /** The reading of this hail has come so far, and nothing has changed since. */
  function At(s: ReadingState, h: HailId, r: Reading): ReadingState {
    s.(readings := s.readings[h := r])
  }

  lemma {:induction false} FirstQueries(cfg: Config, s: ReadingState, k: nat, around: Surroundings)
    requires Keys(s.core) && Enabled(s, Check(k, around.now))
    requires ReassignResult(cfg, s.core, s.core.jobs[k].hail, around.nearby).Ok?
    ensures
      var h, n := s.core.jobs[k].hail, |s.core.hails|;
      var contacted := Contacted(s.core, s.core.hails[h].session);
      && ReadingStep(cfg, s, Check(k, around.now)) == At(s, h, Reading(around.now, n, Checked))
      && ReadingStep(cfg, At(s, h, Reading(around.now, n, Checked)), Count(k)) ==
         At(s, h, Reading(around.now, n, Counted))
      && ReadingStep(cfg, At(s, h, Reading(around.now, n, Counted)), Collect(k)) ==
         At(s, h, Reading(around.now, n, Collected(n, contacted)))
  {
    var h, n := s.core.jobs[k].hail, |s.core.hails|;
    forall a: Reading, b: Reading
      ensures At(At(s, h, a), h, b) == At(s, h, b)
    {
      assert s.readings[h := a][h := b] == s.readings[h := b];
    }
  }

  lemma {:induction false} LastQuery(cfg: Config, s: ReadingState, k: nat, around: Surroundings)
    requires Keys(s.core) && IsReassign(s.core, k) && !Waits(s.core, s.core.jobs[k])
    requires ReassignResult(cfg, s.core, s.core.jobs[k].hail, around.nearby).Ok?
    ensures
      var h, n := s.core.jobs[k].hail, |s.core.hails|;
      var contacted := Contacted(s.core, s.core.hails[h].session);
      ReadingStep(cfg, At(s, h, Reading(around.now, n, Collected(n, contacted))), Choose(k, around.nearby)).core ==
      Step(cfg, s.core, RunJob(k, around))
  {
    var h, s0 := s.core.jobs[k].hail, s.core.(jobs := Without(s.core.jobs, k));
    SameReading(cfg, s.core, s0, h, around.nearby);
    var choice := ReassignResult(cfg, s.core, h, around.nearby).value;
    assert Step(cfg, s.core, RunJob(k, around)) == Enqueue(s0, [Place(h, choice, around.now)]);
  }

  /** With nothing in between, the four queries are the reading in one step. */
  lemma {:induction false} QueriesAreTheReading(cfg: Config, s: ReadingState, k: nat, around: Surroundings)
    requires Keys(s.core) && Enabled(s, Check(k, around.now))
    requires ReassignResult(cfg, s.core, s.core.jobs[k].hail, around.nearby).Ok?
    ensures
      var s1 := ReadingStep(cfg, s, Check(k, around.now));
      var s2 := ReadingStep(cfg, s1, Count(k));
      var s3 := ReadingStep(cfg, s2, Collect(k));
      ReadingStep(cfg, s3, Choose(k, around.nearby)).core == Step(cfg, s.core, RunJob(k, around))
  {
    FirstQueries(cfg, s, k, around);
    LastQuery(cfg, s, k, around);
  }

  /** Every run of whole requests and jobs is one of the runs here. */
  lemma {:induction false} WholeRunsRemain(cfg: Config, s: ReadingState, actions: seq<Action>)
    requires Keys(s.core) && s.readings == map[]
    ensures
      var wholes := seq(|actions|, i requires 0 <= i < |actions| => Whole(actions[i]));
      ReadingRun(cfg, s, wholes) == s.(core := Run(cfg, s.core, actions))
    decreases |actions|
  {
    if actions != [] {
      var wholes := seq(|actions|, i requires 0 <= i < |actions| => Whole(actions[i]));
      var rest := actions[1..];
      assert wholes[1..] == seq(|rest|, i requires 0 <= i < |rest| => Whole(rest[i]));
      WholeRunsRemain(cfg, ReadingStep(cfg, s, wholes[0]), rest);
    }
  }

  // -------------------------------------------- each query by its effect

  /** A reassignment begins its reading unless one of the same session has chosen already or is reading. */
  lemma {:induction false} ReadingsWaitExactly(s: ReadingState, k: nat, now: real)
    ensures
      Enabled(s, Check(k, now)) <==>
      && k < |s.core.jobs| && s.core.jobs[k].Reassign? && s.core.jobs[k].hail < |s.core.hails|
      && var session := s.core.hails[s.core.jobs[k].hail].session;
      && (forall j | 0 <= j < |s.core.jobs| && s.core.jobs[j].Place? && s.core.jobs[j].hail < |s.core.hails| ::
            s.core.hails[s.core.jobs[j].hail].session != session)
      && (forall h | h in s.readings && h < |s.core.hails| :: s.core.hails[h].session != session)
  {
  }

  /** The reassignment has left the queue, with these jobs after it. */
  ghost predicate Ended(s: ReadingState, k: nat, more: seq<Job>, s': ReadingState)
    requires k < |s.core.jobs|
  {
    && s'.core == s.core.(jobs := Without(s.core.jobs, k) + more)
    && s'.readings == s.readings - {s.core.jobs[k].hail}
  }

  /** The reading has come so far, and nothing else has changed. */
  ghost predicate Continues(s: ReadingState, h: HailId, r: Reading, s': ReadingState) {
    s'.core == s.core && s'.readings == s.readings[h := r]
  }

  /**
   The first query ends the reassignment unless its source was refused or left
   unanswered and no other hail of the session is active; the second unless the
   session has fewer hails than the limit.
   */
  lemma {:induction false} FirstQueriesExactly(cfg: Config, s: ReadingState, k: nat, now: real)
    requires Keys(s.core) && IsReassign(s.core, k)
    ensures
      var h, s' := s.core.jobs[k].hail, ReadingStep(cfg, s, Check(k, now));
      var refused := s.core.hails[h].status == DeclinedByTaxi || s.core.hails[h].status == TimeoutTaxi;
      var active := exists i | 0 <= i < |s.core.hails| ::
                      i != h && s.core.hails[i].session == s.core.hails[h].session && !Terminal(s.core.hails[i].status);
      Enabled(s, Check(k, now)) ==>
        if refused && !active then Continues(s, h, Reading(now, |s.core.hails|, Checked), s') else Ended(s, k, [], s')
    ensures
      var h, s' := s.core.jobs[k].hail, ReadingStep(cfg, s, Count(k));
      Enabled(s, Count(k)) ==>
        if |HailsOf(s.core.hails, s.core.hails[h].session)| < cfg.candidateLimit
        then Continues(s, h, s.readings[h].(stage := Counted), s') else Ended(s, k, [], s')
  {
    var h := s.core.jobs[k].hail;
    SizeIsNumberOfHails(s.core.hails, s.core.hails[h].session);
    assert OtherActiveInSession(s.core, h) <==>
           exists i | 0 <= i < |s.core.hails| ::
             i != h && s.core.hails[i].session == s.core.hails[h].session && !Terminal(s.core.hails[i].status);
  }

  /**
   The third query keeps the taxis that the session has had; the last one chooses the
   first taxi nearby that is free and none of these, as of when the reading began.
   */
  lemma {:induction false} LastQueriesExactly(cfg: Config, s: ReadingState, k: nat, nearby: seq<TaxiId>)
    requires Keys(s.core) && IsReassign(s.core, k)
    ensures
      var h, s' := s.core.jobs[k].hail, ReadingStep(cfg, s, Collect(k));
      Enabled(s, Collect(k)) ==>
        && h in s'.readings && s'.readings[h].stage.Collected? && s'.readings[h].stage.since == |s.core.hails|
        && Continues(s, h, s.readings[h].(stage := s'.readings[h].stage), s')
        && forall t :: t in s'.readings[h].stage.contacted <==> AlreadyAsked(s.core, s.core.hails[h].session, t)
    ensures
      var h, s' := s.core.jobs[k].hail, ReadingStep(cfg, s, Choose(k, nearby));
      Enabled(s, Choose(k, nearby)) ==>
        var contacted := s.readings[h].stage.contacted;
        if forall i | 0 <= i < |nearby| :: !FreeBeside(s.core, contacted, nearby[i]) then Ended(s, k, [], s')
        else
          exists i | 0 <= i < |nearby| ::
            && FreeBeside(s.core, contacted, nearby[i])
            && (forall j | 0 <= j < i :: !FreeBeside(s.core, contacted, nearby[j]))
            && Ended(s, k, [Place(h, nearby[i], s.readings[h].now)], s')
  {
    if Enabled(s, Choose(k, nearby)) {
      FirstFreeIsChosen(s.core, nearby, s.readings[s.core.jobs[k].hail].stage.contacted);
    }
  }
}
