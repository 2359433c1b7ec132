/**
 Progress: a hail that is not over always has a job that will move it, with one
 exception that is told exactly; and background jobs alone bring every hail to an
 end within a bound that depends on the candidate limit.
 */
module DispatchProgress {
  import opened Wrappers
  import opened HailTypes
  import opened HailMachine
  import opened Dispatch
  import opened DispatchInvariant
  import opened DispatchScenario

  // ------------------------------------------------------------- no hail is stuck

  /** The job that moves a hail on when nobody else does. */
  function Mover(h: HailId, status: HailStatus): Job {
    match TimeoutFor(status)
    case Some(spec) => Timer(h, status, spec.hail, spec.taxi)
    case None => Send(h)
  }

  ghost predicate Driven(s: State, i: HailId)
    requires i < |s.hails|
  {
    Terminal(s.hails[i].status) || Mover(i, s.hails[i].status) in s.jobs
  }

  ghost predicate NothingStuck(s: State) {
    forall i | 0 <= i < |s.hails| :: Driven(s, i)
  }

  /**
   The request to an operator, still in time, comes to a reply that raises: one
   that cannot be handled, or a success whose body cannot be read or has a number
   that the column refuses. The job dies, the hail stays.
   */
  predicate Strands(cfg: Config, s: State, a: Action)
    requires Keys(s)
  {
    && a.RunJob? && a.index < |s.jobs| && s.jobs[a.index].Send?
    && var row := s.hails[s.jobs[a.index].hail];
    && row.status.Received?
    && a.around.now - row.addedAt <= cfg.sendMaxDelay as real
    && row.operateur !in cfg.internalOperators
    && KillsJob(cfg.column, a.around.reply)
  }

  lemma {:induction false} KeptJob(s: State, k: nat, job: Job)
    requires k < |s.jobs| && job in s.jobs && job != s.jobs[k]
    ensures job in Without(s.jobs, k)
  {
  }

  lemma {:induction false} CreateKeepsDriven(cfg: Config, s: State, r: CreateRequest)
    requires Inv(cfg, s) && NothingStuck(s)
    ensures NothingStuck(CreateStep(cfg, s, r))
  {
    var s' := CreateStep(cfg, s, r);
    forall i | 0 <= i < |s'.hails|
      ensures Driven(s', i)
    {
      assert i < |s.hails| ==> Driven(s, i);
    }
  }

  lemma {:induction false} PutHailKeepsDriven(cfg: Config, s: State, h: HailId, user: User, r: HailRequest)
    requires Inv(cfg, s) && NothingStuck(s)
    ensures NothingStuck(PutHailStep(s, h, user, r))
  {
    var s' := PutHailStep(s, h, user, r);
    var result := PutHailResult(s, h, user, r);
    if result.Ok? && result.value.Some? {
      TransitionStep(s.hails[h], s.taxis[s.hails[h].taxi].status, r.status.value, Some(user), r.phone, r.event);
      if result.value.value.changed && !Terminal(r.status.value) {
        assert FollowUp(h, r.status.value) == [Mover(h, r.status.value)];
      }
    }
    forall i | 0 <= i < |s'.hails|
      ensures Driven(s', i)
    {
      assert Driven(s, i);
    }
  }

  /** A hail keeps the job that moves it while other jobs run. */
  lemma {:induction false} StaysDriven(s: State, s': State, k: nat, i: HailId)
    requires i < |s.hails| && i < |s'.hails| && Driven(s, i) && s'.hails[i].status == s.hails[i].status
    requires k < |s.jobs| && Without(s.jobs, k) <= s'.jobs
    requires Terminal(s.hails[i].status) || s.jobs[k] != Mover(i, s.hails[i].status)
    ensures Driven(s', i)
  {
    var mover := Mover(i, s.hails[i].status);
    if mover in s.jobs && mover != s.jobs[k] {
      KeptJob(s, k, mover);
    }
  }

  /** A request that is not stranded moves its hail on to a status that is over or has a timer. */
  lemma {:induction false} SentIsDriven(cfg: Config, s: State, h: HailId, around: Surroundings)
    requires Keys(s) && h < |s.hails| && Faithful(s.hails[h]) && SendEffectOn(cfg, s.hails[h], around).Effect?
    ensures Driven(SendStep(cfg, s, h, around), h)
  {
  }

  lemma {:induction false} SendKeepsDriven(cfg: Config, s: State, k: nat, around: Surroundings)
    requires Inv(cfg, s) && NothingStuck(s) && k < |s.jobs| && s.jobs[k].Send?
    requires !Strands(cfg, s, RunJob(k, around))
    ensures NothingStuck(Step(cfg, s, RunJob(k, around)))
  {
    var s', h := Step(cfg, s, RunJob(k, around)), s.jobs[k].hail;
    forall i | 0 <= i < |s'.hails|
      ensures Driven(s', i)
    {
      if i == h && SendEffectOn(cfg, s.hails[h], around).Effect? {
        SentIsDriven(cfg, s.(jobs := Without(s.jobs, k)), h, around);
      } else {
        assert Driven(s, i);
        StaysDriven(s, s', k, i);
      }
    }
  }

  lemma {:induction false} TimerKeepsDriven(cfg: Config, s: State, k: nat, around: Surroundings)
    requires Inv(cfg, s) && NothingStuck(s) && k < |s.jobs| && s.jobs[k].Timer?
    ensures NothingStuck(Step(cfg, s, RunJob(k, around)))
  {
    var s' := Step(cfg, s, RunJob(k, around));
    assert JobFits(s, s.jobs[k]);
    forall i | 0 <= i < |s'.hails|
      ensures Driven(s', i)
    {
      assert Driven(s, i);
      if s'.hails[i].status == s.hails[i].status {
        StaysDriven(s, s', k, i);
      }
    }
  }

  /** A job that moves no hail leaves the others driven, whatever it adds. */
  lemma {:induction false} OthersStayDriven(s: State, s': State, k: nat)
    requires NothingStuck(s) && k < |s.jobs| && (s.jobs[k].Reassign? || s.jobs[k].Place?)
    requires |s.hails| <= |s'.hails| && forall i | 0 <= i < |s.hails| :: s'.hails[i] == s.hails[i]
    requires Without(s.jobs, k) <= s'.jobs
    ensures forall i | 0 <= i < |s.hails| :: Driven(s', i)
  {
    forall i | 0 <= i < |s.hails|
      ensures Driven(s', i)
    {
      assert Driven(s, i);
      StaysDriven(s, s', k, i);
    }
  }

  lemma {:induction false} ReassignKeepsDriven(cfg: Config, s: State, k: nat, around: Surroundings)
    requires Inv(cfg, s) && NothingStuck(s) && k < |s.jobs| && s.jobs[k].Reassign? && !Waits(s, s.jobs[k])
    ensures NothingStuck(Step(cfg, s, RunJob(k, around)))
  {
    OthersStayDriven(s, Step(cfg, s, RunJob(k, around)), k);
  }

  lemma {:induction false} PlaceKeepsDriven(cfg: Config, s: State, k: nat, around: Surroundings)
    requires Inv(cfg, s) && NothingStuck(s) && k < |s.jobs| && s.jobs[k].Place?
    ensures NothingStuck(Step(cfg, s, RunJob(k, around)))
  {
    var s', n := Step(cfg, s, RunJob(k, around)), |s.hails|;
    OthersStayDriven(s, s', k);
    if n < |s'.hails| {
      assert s'.hails[n].status == Received && s'.jobs[|s'.jobs| - 1] == Send(n);
    }
  }

  lemma {:induction false} StrandedIsStuck(cfg: Config, s: State, a: Action)
    requires Inv(cfg, s) && Strands(cfg, s, a)
    ensures !NothingStuck(Step(cfg, s, a))
  {
    DequeueKeepsInv(cfg, s, a.index);
    assert !Driven(Step(cfg, s, a), s.jobs[a.index].hail);
  }

  /**
   A step leaves a hail without a job that moves it exactly when the reply to a
   request that is still in time raises.
   */
  lemma {:induction false} StuckExactlyWhenUnreadable(cfg: Config, s: State, a: Action)
    requires Inv(cfg, s) && NothingStuck(s)
    ensures NothingStuck(Step(cfg, s, a)) <==> !Strands(cfg, s, a)
  {
    if Strands(cfg, s, a) {
      StrandedIsStuck(cfg, s, a);
    } else {
      match a
      case Create(r) => CreateKeepsDriven(cfg, s, r);
      case PutHail(h, user, r) => PutHailKeepsDriven(cfg, s, h, user, r);
      case RunJob(k, around) =>
        if k < |s.jobs| {
          match s.jobs[k]
          case Send(_) => SendKeepsDriven(cfg, s, k, around);
          case Timer(_, _, _, _) => TimerKeepsDriven(cfg, s, k, around);
          case Reassign(_) => if !Waits(s, s.jobs[k]) { ReassignKeepsDriven(cfg, s, k, around); }
          case Place(_, _, _) => PlaceKeepsDriven(cfg, s, k, around);
        }
      case _ =>
        forall i | 0 <= i < |s.hails|
          ensures Driven(Step(cfg, s, a), i)
        {
          assert Driven(s, i);
        }
    }
  }

  ghost predicate NeverStrands(cfg: Config, s: State, actions: seq<Action>)
    requires Keys(s)
    decreases |actions|
  {
    actions == [] || (!Strands(cfg, s, actions[0]) && NeverStrands(cfg, Step(cfg, s, actions[0]), actions[1..]))
  }

  /** As long as no reply raises, no run leaves a hail stuck. */
  lemma {:induction false} RunKeepsDriven(cfg: Config, s: State, actions: seq<Action>)
    requires Inv(cfg, s) && NothingStuck(s) && NeverStrands(cfg, s, actions)
    ensures Inv(cfg, Run(cfg, s, actions)) && NothingStuck(Run(cfg, s, actions))
    decreases |actions|
  {
    if actions != [] {
      StepKeepsInv(cfg, s, actions[0]);
      StuckExactlyWhenUnreadable(cfg, s, actions[0]);
      RunKeepsDriven(cfg, Step(cfg, s, actions[0]), actions[1..]);
    }
  }

  // ------------------------------------------------------------- background jobs end

  function JobWeight(job: Job): nat {
    match job
    case Reassign(_) => 2
    case Timer(_, _, _, _) => 3
    case Send(_) => 4
    case Place(_, _, _) => 5
  }

  function Weight(jobs: seq<Job>): nat {
    if jobs == [] then 0 else Weight(jobs[..|jobs| - 1]) + JobWeight(jobs[|jobs| - 1])
  }

  function Sessions(hails: seq<HailRow>): set<Session> {
    set i | 0 <= i < |hails| :: hails[i].session
  }

  /** The job is a choice that will take a place in the session. */
  predicate Reserves(hails: seq<HailRow>, job: Job, session: Session) {
    job.Place? && job.hail < |hails| && hails[job.hail].session == session
  }

  function Reserved(hails: seq<HailRow>, jobs: seq<Job>, session: Session): nat {
    if jobs == [] then 0
    else
      var n := |jobs| - 1;
      Reserved(hails, jobs[..n], session) + (if Reserves(hails, jobs[n], session) then 1 else 0)
  }

  /** The places of a session that are taken or spoken for. */
  function Used(s: State, session: Session): nat {
    SessionSize(s.hails, session) + Reserved(s.hails, s.jobs, session)
  }

  /** How many more hails reassignments may add to a session. */
  function Room(cfg: Config, s: State, session: Session): nat {
    if Used(s, session) < cfg.candidateLimit then cfg.candidateLimit - Used(s, session) else 0
  }

  ghost function TotalRoom(cfg: Config, s: State, sessions: set<Session>): nat {
    if sessions == {} then 0
    else
      var x :| x in sessions;
      Room(cfg, s, x) + TotalRoom(cfg, s, sessions - {x})
  }

  /** What background jobs can still do: the jobs pending, and the hails reassignments may add. */
  ghost function Measure(cfg: Config, s: State): nat {
    Weight(s.jobs) + 4 * TotalRoom(cfg, s, Sessions(s.hails))
  }

  lemma {:induction false} WeightOfConcat(a: seq<Job>, b: seq<Job>)
    ensures Weight(a + b) == Weight(a) + Weight(b)
    decreases |b|
  {
    if b == [] {
      assert a + b == a;
    } else {
      var n := |b| - 1;
      assert (a + b)[..|a + b| - 1] == a + b[..n];
      WeightOfConcat(a, b[..n]);
    }
  }

  lemma {:induction false} WeightOfWithout(jobs: seq<Job>, k: nat)
    requires k < |jobs|
    ensures Weight(jobs) == Weight(Without(jobs, k)) + JobWeight(jobs[k])
  {
    WeightOfConcat(jobs[..k], jobs[k + 1..]);
    WeightOfConcat(jobs[..k + 1], jobs[k + 1..]);
    assert jobs[..k + 1] + jobs[k + 1..] == jobs;
    assert jobs[..k + 1][..k] == jobs[..k];
  }

  lemma {:induction false} ReservedOfConcat(hails: seq<HailRow>, a: seq<Job>, b: seq<Job>, session: Session)
    ensures Reserved(hails, a + b, session) == Reserved(hails, a, session) + Reserved(hails, b, session)
    decreases |b|
  {
    if b == [] {
      assert a + b == a;
    } else {
      var n := |b| - 1;
      assert (a + b)[..|a| + n] == a + b[..n];
      ReservedOfConcat(hails, a, b[..n], session);
    }
  }

  lemma {:induction false} ReservedOfOne(hails: seq<HailRow>, job: Job, session: Session)
    ensures Reserved(hails, [job], session) == if Reserves(hails, job, session) then 1 else 0
  {
  }

  lemma {:induction false} ReservedOfWithout(hails: seq<HailRow>, jobs: seq<Job>, k: nat, session: Session)
    requires k < |jobs|
    ensures Reserved(hails, jobs, session) ==
            Reserved(hails, Without(jobs, k), session) + if Reserves(hails, jobs[k], session) then 1 else 0
  {
    ReservedOfConcat(hails, jobs[..k], jobs[k + 1..], session);
    ReservedOfConcat(hails, jobs[..k + 1], jobs[k + 1..], session);
    assert jobs[..k + 1][..k] == jobs[..k];
    assert jobs == jobs[..k + 1] + jobs[k + 1..];
  }

  /** What is reserved depends on the sessions of the jobs' hails only. */
  lemma {:induction false} ReservedOfHails(hails: seq<HailRow>, hails': seq<HailRow>, jobs: seq<Job>, session: Session)
    requires |hails| <= |hails'| && forall i | 0 <= i < |hails| :: hails'[i].session == hails[i].session
    requires forall k | 0 <= k < |jobs| :: jobs[k].hail < |hails|
    ensures Reserved(hails', jobs, session) == Reserved(hails, jobs, session)
  {
    if jobs != [] {
      ReservedOfHails(hails, hails', jobs[..|jobs| - 1], session);
    }
  }

  lemma {:induction false} NothingReserved(s: State, jobs: seq<Job>, session: Session)
    requires forall k | 0 <= k < |jobs| :: !Reserves(s.hails, jobs[k], session)
    ensures Reserved(s.hails, jobs, session) == 0
  {
    if jobs != [] {
      NothingReserved(s, jobs[..|jobs| - 1], session);
    }
  }

  lemma {:induction false} TotalRoomOf(cfg: Config, s: State, sessions: set<Session>, y: Session)
    requires y in sessions
    ensures TotalRoom(cfg, s, sessions) == Room(cfg, s, y) + TotalRoom(cfg, s, sessions - {y})
  {
    var x :| x in sessions && TotalRoom(cfg, s, sessions) == Room(cfg, s, x) + TotalRoom(cfg, s, sessions - {x});
    if x != y {
      TotalRoomOf(cfg, s, sessions - {x}, y);
      TotalRoomOf(cfg, s, sessions - {y}, x);
      assert sessions - {x} - {y} == sessions - {y} - {x};
    }
  }

  lemma {:induction false} TotalRoomSame(cfg: Config, s: State, s': State, sessions: set<Session>)
    requires forall x | x in sessions :: Used(s, x) == Used(s', x)
    ensures TotalRoom(cfg, s, sessions) == TotalRoom(cfg, s', sessions)
  {
    if sessions != {} {
      var y :| y in sessions;
      TotalRoomOf(cfg, s, sessions, y);
      TotalRoomOf(cfg, s', sessions, y);
      TotalRoomSame(cfg, s, s', sessions - {y});
    }
  }

  /** When only one session has changed, so has only its room. */
  lemma {:induction false} TotalRoomShift(cfg: Config, s: State, s': State, sessions: set<Session>, y: Session)
    requires y in sessions && forall x | x in sessions && x != y :: Used(s, x) == Used(s', x)
    ensures TotalRoom(cfg, s', sessions) - TotalRoom(cfg, s, sessions) == Room(cfg, s', y) - Room(cfg, s, y)
  {
    TotalRoomOf(cfg, s, sessions, y);
    TotalRoomOf(cfg, s', sessions, y);
    TotalRoomSame(cfg, s, s', sessions - {y});
  }

  /** Rewriting a hail leaves the room of every session as it was. */
  lemma {:induction false} RoomOfCommit(cfg: Config, s: State, h: HailId, row: HailRow, taxi: TaxiStatus)
    requires Keys(s) && h < |s.hails| && row.session == s.hails[h].session
    ensures
      var s' := Commit(s, h, row, taxi);
      TotalRoom(cfg, s', Sessions(s'.hails)) == TotalRoom(cfg, s, Sessions(s.hails))
  {
    var s' := Commit(s, h, row, taxi);
    assert forall i | 0 <= i < |s.hails| :: s'.hails[i].session == s.hails[i].session;
    assert Sessions(s'.hails) == Sessions(s.hails);
    forall x | x in Sessions(s.hails)
      ensures Used(s, x) == Used(s', x)
    {
      SessionSizeOfCommit(s.hails, h, row, x);
      ReservedOfHails(s.hails, s'.hails, s.jobs, x);
    }
    TotalRoomSame(cfg, s, s', Sessions(s.hails));
  }

  /** A job that reserves no place leaves the room of every session as it was. */
  lemma {:induction false} MeasureOfEnqueue(cfg: Config, s: State, job: Job)
    requires !job.Place?
    ensures Measure(cfg, Enqueue(s, [job])) == Measure(cfg, s) + JobWeight(job)
  {
    var s' := Enqueue(s, [job]);
    forall x | x in Sessions(s.hails)
      ensures Used(s, x) == Used(s', x)
    {
      ReservedOfConcat(s.hails, s.jobs, [job], x);
      ReservedOfOne(s.hails, job, x);
    }
    TotalRoomSame(cfg, s, s', Sessions(s.hails));
    assert s'.jobs[..|s.jobs|] == s.jobs;
  }

  lemma {:induction false} SendUsesMeasure(cfg: Config, s: State, h: HailId, around: Surroundings)
    requires Keys(s) && h < |s.hails|
    ensures Measure(cfg, SendStep(cfg, s, h, around)) <= Measure(cfg, s) + 3
  {
    var e := SendEffectOn(cfg, s.hails[h], around);
    if e.Effect? {
      var s' := Commit(s, h, e.row, if e.fails then Free else s.taxis[s.hails[h].taxi].status);
      RoomOfCommit(cfg, s, h, e.row, s'.taxis[s.hails[h].taxi].status);
      var timer := TimerFor(h, e.row.status);
      if timer == [] {
        assert Enqueue(s', timer) == s';
      } else {
        MeasureOfEnqueue(cfg, s', timer[0]);
      }
    }
  }

  lemma {:induction false} TimerUsesMeasure(cfg: Config, s: State, h: HailId, initial: HailStatus,
                                            target: HailStatus, taxi: TaxiStatus)
    requires Keys(s) && h < |s.hails|
    ensures Measure(cfg, TimerStep(s, h, initial, target, taxi)) <= Measure(cfg, s) + 2
  {
    if s.hails[h].status == initial {
      var row := Changed(s.hails[h], target, None, TimedOut, "");
      RoomOfCommit(cfg, s, h, row, taxi);
      MeasureOfEnqueue(cfg, Commit(s, h, row, taxi), Reassign(h));
    }
  }

  /** A choice speaks for a place of its session. */
  lemma {:induction false} ReassignUsesMeasure(cfg: Config, s: State, h: HailId, around: Surroundings)
    requires Keys(s) && h < |s.hails| && !Placing(s, s.hails[h].session)
    ensures Measure(cfg, ReassignStep(cfg, s, h, around)) <= Measure(cfg, s) + 1
  {
    var result := ReassignResult(cfg, s, h, around.nearby);
    if result.Ok? {
      var job, session := Place(h, result.value, around.now), s.hails[h].session;
      var s' := Enqueue(s, [job]);
      forall x
        ensures Used(s', x) == Used(s, x) + if x == session then 1 else 0
      {
        ReservedOfConcat(s.hails, s.jobs, [job], x);
        ReservedOfOne(s.hails, job, x);
      }
      NothingReserved(s, s.jobs, session);
      assert session in Sessions(s.hails);
      TotalRoomShift(cfg, s, s', Sessions(s.hails), session);
      assert s'.jobs[..|s.jobs|] == s.jobs;
    }
  }

  /** Taking a job off the queue gives back the place that it had spoken for. */
  lemma {:induction false} MeasureOfDequeue(cfg: Config, s: State, k: nat)
    requires Keys(s) && k < |s.jobs|
    ensures
      Measure(cfg, s.(jobs := Without(s.jobs, k))) + JobWeight(s.jobs[k])
      <= Measure(cfg, s) + if s.jobs[k].Place? then 4 else 0
  {
    var s0, session := s.(jobs := Without(s.jobs, k)), s.hails[s.jobs[k].hail].session;
    WeightOfWithout(s.jobs, k);
    forall x
      ensures Used(s, x) == Used(s0, x) + if s.jobs[k].Place? && x == session then 1 else 0
    {
      ReservedOfWithout(s.hails, s.jobs, k, x);
    }
    assert session in Sessions(s.hails);
    TotalRoomShift(cfg, s, s0, Sessions(s.hails), session);
  }

  /** An insert takes the place that was spoken for. */
  lemma {:induction false} RoomOfPlaced(cfg: Config, s: State, k: nat, row: HailRow)
    requires Keys(s) && k < |s.jobs| && s.jobs[k].Place? && row.taxi in s.taxis
    requires row.session == s.hails[s.jobs[k].hail].session
    ensures
      var s' := Insert(s.(jobs := Without(s.jobs, k)), row);
      TotalRoom(cfg, s', Sessions(s'.hails)) == TotalRoom(cfg, s, Sessions(s.hails))
  {
    var s0 := s.(jobs := Without(s.jobs, k));
    var s', n := Insert(s0, row), |s.hails|;
    assert s'.hails[..n] == s.hails;
    assert Sessions(s'.hails) == Sessions(s.hails) by {
      assert forall i | 0 <= i < n :: s'.hails[i] == s.hails[i];
      assert s'.hails[n].session == s.hails[s.jobs[k].hail].session;
    }
    WithoutIsSubsequence(s.jobs, k);
    forall x
      ensures Used(s', x) == Used(s, x)
    {
      ReservedOfWithout(s.hails, s.jobs, k, x);
      ReservedOfHails(s.hails, s'.hails, s0.jobs, x);
      ReservedOfConcat(s'.hails, s0.jobs, [Send(n)], x);
      ReservedOfOne(s'.hails, Send(n), x);
    }
    TotalRoomSame(cfg, s, s', Sessions(s.hails));
  }

  lemma {:induction false} PlaceUsesMeasure(cfg: Config, s: State, k: nat, around: Surroundings)
    requires Keys(s) && k < |s.jobs| && s.jobs[k].Place?
    ensures Measure(cfg, Step(cfg, s, RunJob(k, around))) < Measure(cfg, s)
  {
    var job, s0 := s.jobs[k], s.(jobs := Without(s.jobs, k));
    if TaxiEngaged(s0, job.choice) {
      MeasureOfDequeue(cfg, s, k);
    } else {
      var row := ReassignRow(s0, job.hail, job.choice, job.now);
      RoomOfPlaced(cfg, s, k, row);
      WeightOfWithout(s.jobs, k);
      assert (s0.jobs + [Send(|s.hails|)])[..|s0.jobs|] == s0.jobs;
    }
  }

  /** Every background job that runs uses up at least one unit of the measure. */
  lemma {:induction false} JobsUseMeasure(cfg: Config, s: State, k: nat, around: Surroundings)
    requires Keys(s) && k < |s.jobs| && !Waits(s, s.jobs[k])
    ensures Measure(cfg, Step(cfg, s, RunJob(k, around))) < Measure(cfg, s)
  {
    var s0 := s.(jobs := Without(s.jobs, k));
    if !s.jobs[k].Place? {
      MeasureOfDequeue(cfg, s, k);
      WithoutIsSubsequence(s.jobs, k);
    }
    match s.jobs[k]
    case Send(h) => SendUsesMeasure(cfg, s0, h, around);
    case Timer(h, initial, target, taxi) => TimerUsesMeasure(cfg, s0, h, initial, target, taxi);
    case Reassign(h) => ReassignUsesMeasure(cfg, s0, h, around);
    case Place(_, _, _) => PlaceUsesMeasure(cfg, s, k, around);
  }

  /** Only background jobs run, each finds its place in the queue, and none is one that waits. */
  ghost predicate Background(cfg: Config, s: State, actions: seq<Action>)
    requires Keys(s)
    decreases |actions|
  {
    actions == [] ||
    (&& actions[0].RunJob? && actions[0].index < |s.jobs| && !Waits(s, s.jobs[actions[0].index])
     && Background(cfg, Step(cfg, s, actions[0]), actions[1..]))
  }

  lemma {:induction false} BackgroundIsBounded(cfg: Config, s: State, actions: seq<Action>)
    requires Inv(cfg, s) && Background(cfg, s, actions)
    ensures |actions| + Measure(cfg, Run(cfg, s, actions)) <= Measure(cfg, s)
    decreases |actions|
  {
    if actions != [] {
      StepKeepsInv(cfg, s, actions[0]);
      JobsUseMeasure(cfg, s, actions[0].index, actions[0].around);
      BackgroundIsBounded(cfg, Step(cfg, s, actions[0]), actions[1..]);
    }
  }

  lemma {:induction false} WeightIsBounded(jobs: seq<Job>)
    ensures Weight(jobs) <= 5 * |jobs|
  {
    if jobs != [] {
      WeightIsBounded(jobs[..|jobs| - 1]);
    }
  }

  lemma {:induction false} OneMore(limit: nat, n: nat)
    ensures limit * n + limit == limit * (n + 1)
  {
  }

  lemma {:induction false} TotalRoomIsBounded(cfg: Config, s: State, sessions: set<Session>)
    ensures TotalRoom(cfg, s, sessions) <= cfg.candidateLimit * |sessions|
  {
    if sessions != {} {
      var y :| y in sessions;
      TotalRoomOf(cfg, s, sessions, y);
      TotalRoomIsBounded(cfg, s, sessions - {y});
      OneMore(cfg.candidateLimit, |sessions - {y}|);
    }
  }

  ghost function Bound(cfg: Config, s: State): nat {
    5 * |s.jobs| + 4 * (cfg.candidateLimit * |Sessions(s.hails)|)
  }

  lemma {:induction false} MeasureIsBounded(cfg: Config, s: State)
    ensures Measure(cfg, s) <= Bound(cfg, s)
  {
    WeightIsBounded(s.jobs);
    TotalRoomIsBounded(cfg, s, Sessions(s.hails));
  }

  ghost predicate AllOver(s: State) {
    && (forall i | 0 <= i < |s.hails| :: Terminal(s.hails[i].status))
    && (forall t | t in s.taxis :: Updatable(s.taxis[t].status))
  }

  lemma {:induction false} EmptyQueueMeansAllOver(cfg: Config, s: State)
    requires Inv(cfg, s) && NothingStuck(s) && s.jobs == []
    ensures AllOver(s)
  {
    forall i | 0 <= i < |s.hails|
      ensures Terminal(s.hails[i].status)
    {
      assert Driven(s, i);
    }
  }

  /**
   From any reachable state, while no reply raises, background jobs alone, in
   any order, run at most five times for each pending job and four times for
   each place that sessions could fill; and once no job is left every hail is over
   and every taxi is in a status its operator may change.
   */
  lemma {:induction false} BackgroundEndsEveryHail(cfg: Config, s: State, actions: seq<Action>,
                                                   background: seq<Action>)
    requires Initial(s) && NeverStrands(cfg, s, actions)
    requires Background(cfg, Run(cfg, s, actions), background)
    requires NeverStrands(cfg, Run(cfg, s, actions), background)
    ensures
      var s1 := Run(cfg, s, actions);
      var s2 := Run(cfg, s1, background);
      |background| <= Bound(cfg, s1) && (s2.jobs == [] ==> AllOver(s2))
  {
    RunKeepsDriven(cfg, s, actions);
    var s1 := Run(cfg, s, actions);
    BackgroundIsBounded(cfg, s1, background);
    MeasureIsBounded(cfg, s1);
    RunKeepsDriven(cfg, s1, background);
    var s2 := Run(cfg, s1, background);
    if s2.jobs == [] {
      EmptyQueueMeansAllOver(cfg, s2);
    }
  }

  /** A job that does not wait: a choice to insert if there is one, or else any. */
  ghost function Ready(s: State): (k: nat)
    requires s.jobs != []
    ensures k < |s.jobs| && !Waits(s, s.jobs[k])
  {
    if exists i :: 0 <= i < |s.jobs| && s.jobs[i].Place? then
      var i :| 0 <= i < |s.jobs| && s.jobs[i].Place?;
      i
    else 0
  }

  /** The run that takes a job that is ready each time, until none is left. */
  ghost function Drain(cfg: Config, s: State, around: Surroundings): seq<Action>
    requires Inv(cfg, s)
    decreases Measure(cfg, s)
  {
    if s.jobs == [] then []
    else
      var a := RunJob(Ready(s), around);
      StepKeepsInv(cfg, s, a);
      JobsUseMeasure(cfg, s, a.index, around);
      [a] + Drain(cfg, Step(cfg, s, a), around)
  }

  /** Background jobs can always be run until none is left, and with operators out of reach none strands a hail. */
  lemma {:induction false} DrainEmptiesTheQueue(cfg: Config, s: State, around: Surroundings)
    requires Inv(cfg, s)
    ensures Background(cfg, s, Drain(cfg, s, around))
    ensures around.reply.Unreachable? ==> NeverStrands(cfg, s, Drain(cfg, s, around))
    ensures Run(cfg, s, Drain(cfg, s, around)).jobs == []
    decreases Measure(cfg, s)
  {
    if s.jobs != [] {
      var a := RunJob(Ready(s), around);
      StepKeepsInv(cfg, s, a);
      JobsUseMeasure(cfg, s, a.index, around);
      DrainEmptiesTheQueue(cfg, Step(cfg, s, a), around);
      assert Drain(cfg, s, around)[1..] == Drain(cfg, Step(cfg, s, a), around);
    }
  }

  /** The run of one request whose operator sends the reply given, in time. */
  function Replied(cfg: Config, reply: Reply): State {
    Run(cfg, QUIET, [Ask(0, 7), RunJob(0, Surroundings(101.0, reply, []))])
  }

  /** The one hail is received, its taxi answering, and no job is left. */
  ghost predicate OneStranded(s: State) {
    && s.jobs == [] && |s.hails| == 1 && s.hails[0].status == Received
    && 7 in s.taxis && s.taxis[7].status == Answering
  }

  lemma {:induction false} RaisingReplyStrands(cfg: Config, reply: Reply)
    requires cfg.gpsFreshness == 180 && cfg.sendMaxDelay == 10 && cfg.internalOperators == {}
    requires KillsJob(cfg.column, reply)
    ensures Initial(QUIET) && OneStranded(Replied(cfg, reply))
  {
    var run := RunJob(0, Surroundings(101.0, reply, []));
    var s1 := Step(cfg, QUIET, Ask(0, 7));
    assert CreateCheck(cfg, QUIET, Ask(0, 7).request).None?;
    assert s1.jobs == [Send(0)];
    var s2 := Step(cfg, s1, run);
    assert [Ask(0, 7), run][1..] == [run];
    assert Run(cfg, s1, [run]) == Run(cfg, s2, []);
  }

  /** A body that cannot be handled strands the hail whatever code came with it. */
  lemma {:induction false} UnhandledReplyStrandsAHail(column: Json -> Option<string>, code: int)
    ensures OneStranded(Replied(Limited(20, {}, column), Answered(code, Unhandled)))
  {
    RaisingReplyStrands(Limited(20, {}, column), Answered(code, Unhandled));
  }

  /** An object whose data is null: the job is gone and the hail still says received. */
  lemma {:induction false} UnreadableReplyStrandsAHail(column: Json -> Option<string>)
    ensures
      var body := JObject(map["data" := JNull]);
      OneStranded(Replied(Limited(20, {}, column), Answered(200, Decoded(body))))
  {
    var body := JObject(map["data" := JNull]);
    RaisingReplyStrands(Limited(20, {}, column), Answered(200, Decoded(body)));
  }

  /** The same for a number that the column refuses, such as one that holds the character zero. */
  lemma {:induction false} RefusedNumberStrandsAHail(column: Json -> Option<string>, number: Json)
    requires column(number).None?
    ensures
      var body := JObject(map["data" := JArray([JObject(map["taxi_phone_number" := number])])]);
      OneStranded(Replied(Limited(20, {}, column), Answered(200, Decoded(body))))
  {
    var body := JObject(map["data" := JArray([JObject(map["taxi_phone_number" := number])])]);
    RaisingReplyStrands(Limited(20, {}, column), Answered(200, Decoded(body)));
  }
}
