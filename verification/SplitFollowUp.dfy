/**
 A request on a hail as it really ends: it commits, and then reads the hail again
 to choose its timer or the reassignment. Another request on the hail may commit
 in between, and both may then call the same reassignment.
 */
module SplitFollowUp {
  import opened Wrappers
  import opened HailTypes
  import opened HailMachine
  import opened Dispatch
  import opened DispatchInvariant
  import opened DispatchHistory
  import opened DispatchOutcomes
  import opened DispatchScenario

  /** The service, and the hails of the requests that have committed and have still to choose. */
  datatype FollowState = FollowState(core: State, due: seq<HailId>)

  datatype FollowAction =
    | Whole(action: Action)
    | Commits(hail: HailId, user: User, change: HailRequest)
    | Follows(index: nat)

  predicate Moves(s: State, h: HailId, user: User, r: HailRequest)
    requires Keys(s)
  {
    match PutHailResult(s, h, user, r)
    case Ok(Some(a)) => a.changed
    case _ => false
  }

  /** The request up to its commit. */
  function CommitOnly(s: State, h: HailId, user: User, r: HailRequest): (s': State)
    requires Keys(s)
    ensures Keys(s')
  {
    match PutHailResult(s, h, user, r)
    case Ok(Some(a)) => Commit(s, h, a.row, a.taxi)
    case _ => s
  }

  predicate Enabled(s: FollowState, a: FollowAction) {
    a.Follows? ==> a.index < |s.due| && s.due[a.index] < |s.core.hails|
  }

  function FollowStep(cfg: Config, s: FollowState, a: FollowAction): (s': FollowState)
    requires Keys(s.core)
    ensures Keys(s'.core)
  {
    if !Enabled(s, a) then s
    else match a
      case Whole(action) => s.(core := Step(cfg, s.core, action))
      case Commits(h, user, r) =>
        FollowState(CommitOnly(s.core, h, user, r), if Moves(s.core, h, user, r) then s.due + [h] else s.due)
      case Follows(i) =>
        var h := s.due[i];
        FollowState(Enqueue(s.core, FollowUp(h, s.core.hails[h].status)), s.due[..i] + s.due[i + 1..])
  }

  function FollowRun(cfg: Config, s: FollowState, actions: seq<FollowAction>): (s': FollowState)
    requires Keys(s.core)
    ensures Keys(s'.core)
    decreases |actions|
  {
    if actions == [] then s else FollowRun(cfg, FollowStep(cfg, s, actions[0]), actions[1..])
  }

  /** With nothing in between, the two halves are the request in one step. */
  lemma {:induction false} HalvesAreTheRequest(cfg: Config, s: FollowState, h: HailId, user: User, r: HailRequest)
    requires Inv(cfg, s.core) && Moves(s.core, h, user, r)
    ensures
      var s' := FollowStep(cfg, FollowStep(cfg, s, Commits(h, user, r)), Follows(|s.due|));
      s'.core == Step(cfg, s.core, PutHail(h, user, r)) && s'.due == s.due
  {
    assert (s.due + [h])[..|s.due|] + (s.due + [h])[|s.due| + 1..] == s.due;
  }

  lemma {:induction false} CommitIsTheStep(cfg: Config, s: State, h: HailId, user: User, r: HailRequest)
    requires Keys(s)
    ensures
      var s1, s2 := CommitOnly(s, h, user, r), Step(cfg, s, PutHail(h, user, r));
      s1.hails == s2.hails && s1.taxis == s2.taxis && s1.jobs == s.jobs && (!Moves(s, h, user, r) ==> s1 == s2)
  {
  }

  lemma {:induction false} UnchangedIsUnmoved(s: State, h: HailId, user: User, r: HailRequest)
    requires Keys(s) && !Moves(s, h, user, r)
    ensures CommitOnly(s, h, user, r).hails == s.hails
  {
    var result := PutHailResult(s, h, user, r);
    if result.Ok? && result.value.Some? {
      assert s.hails[h := s.hails[h]] == s.hails;
    }
  }

  lemma {:induction false} MovedHasLonger(s: State, h: HailId, user: User, r: HailRequest)
    requires Keys(s) && Moves(s, h, user, r)
    ensures h < |s.hails| && |CommitOnly(s, h, user, r).hails[h].log| == |s.hails[h].log| + 1
  {
  }

  /** A request has something left to choose exactly when it moved the hail; else it has changed nothing. */
  lemma {:induction false} CommitsMoveExactly(cfg: Config, s: FollowState, h: HailId, user: User, r: HailRequest)
    requires Inv(cfg, s.core)
    ensures
      var s' := FollowStep(cfg, s, Commits(h, user, r));
      if Movable(s.core, h, user, r) then
        var row, to := s.core.hails[h], r.status.value;
        var taxi := s.core.taxis[row.taxi];
        && s'.core.hails == s.core.hails[h := MovedBy(row, user, to, r.phone, r.event)]
        && s'.core.taxis == s.core.taxis[row.taxi := taxi.(status := TaxiAfter(to, taxi.status))]
        && s'.core.jobs == s.core.jobs && s'.due == s.due + [h]
      else s' == s
  {
    RequestsMoveHailsExactly(cfg, s.core, h, user, r);
    CommitIsTheStep(cfg, s.core, h, user, r);
    if Moves(s.core, h, user, r) {
      MovedHasLonger(s.core, h, user, r);
    } else {
      UnchangedIsUnmoved(s.core, h, user, r);
    }
  }

  /** What is chosen later goes by the status that the hail has then. */
  lemma {:induction false} FollowsExactly(cfg: Config, s: FollowState, i: nat)
    requires Keys(s.core) && Enabled(s, Follows(i))
    ensures
      var h, s' := s.due[i], FollowStep(cfg, s, Follows(i));
      var now := s.core.hails[h].status;
      && s'.core.hails == s.core.hails && s'.core.taxis == s.core.taxis
      && s'.core.jobs == s.core.jobs + (if now == ReceivedByOperator then [Timer(h, now, Failure, Free)]
                                        else LeftToDo(h, now))
      && s'.due == s.due[..i] + s.due[i + 1..]
  {
  }

  /** Every run of whole requests and jobs is one of the runs here. */
  lemma {:induction false} WholeRunsRemain(cfg: Config, s: FollowState, actions: seq<Action>)
    requires Keys(s.core)
    ensures
      var wholes := seq(|actions|, i requires 0 <= i < |actions| => Whole(actions[i]));
      FollowRun(cfg, s, wholes) == s.(core := Run(cfg, s.core, actions))
    decreases |actions|
  {
    if actions != [] {
      var wholes := seq(|actions|, i requires 0 <= i < |actions| => Whole(actions[i]));
      var rest := actions[1..];
      assert wholes[1..] == seq(|rest|, i requires 0 <= i < |rest| => Whole(rest[i]));
      WholeRunsRemain(cfg, FollowStep(cfg, s, wholes[0]), rest);
    }
  }

  // -------------------------------------------- what the second half may break

  /** No reassignment of the hail is pending, and no hail was made from it. */
  ghost predicate Unused(s: State, h: HailId) {
    Spent(s, h) && MadeFrom(s, h) == {}
  }

  /** The choice, if it is the reassignment, is the first one of its hail. */
  ghost predicate First(s: FollowState, a: FollowAction) {
    a.Follows? && Enabled(s, a) && s.core.hails[s.due[a.index]].status.DeclinedByTaxi? ==>
      Unused(s.core, s.due[a.index])
  }

  lemma {:induction false} CommitOnlyKeepsInv(cfg: Config, s: State, h: HailId, user: User, r: HailRequest)
    requires Inv(cfg, s)
    ensures Inv(cfg, CommitOnly(s, h, user, r))
  {
    var result := PutHailResult(s, h, user, r);
    if result.Ok? && result.value.Some? {
      var row, a := s.hails[h], result.value.value;
      TransitionStep(row, s.taxis[row.taxi].status, r.status.value, Some(user), r.phone, r.event);
      if a.changed {
        assert a.row.log[..|row.log|] == row.log;
        if Send(h) in s.jobs {
          PendingSendIsReceived(s, h);
        }
        CommitKeepsInv(cfg, s, h, a.row, a.taxi);
      } else {
        assert s.taxis[row.taxi := s.taxis[row.taxi].(status := a.taxi)] == s.taxis;
        assert s.hails[h := a.row] == s.hails;
      }
    }
  }

  /** A driver refuses only what was sent to him. */
  lemma {:induction false} RefusedWasReceived(row: HailRow)
    requires Faithful(row) && row.status.DeclinedByTaxi?
    ensures DriverUnavailable(row)
  {
    assert |row.log| >= 2 && Linked(row.log, |row.log| - 1);
  }

  lemma {:induction false} FirstKeepsInv(cfg: Config, s: State, h: HailId)
    requires Inv(cfg, s) && h < |s.hails|
    requires s.hails[h].status.DeclinedByTaxi? ==> Unused(s, h)
    ensures Inv(cfg, Enqueue(s, FollowUp(h, s.hails[h].status)))
  {
    var jobs := FollowUp(h, s.hails[h].status);
    if jobs == [] {
      assert Enqueue(s, jobs) == s;
    } else {
      if s.hails[h].status.DeclinedByTaxi? {
        RefusedWasReceived(s.hails[h]);
        forall j | 0 <= j < |s.hails|
          ensures s.hails[j].origin != ReassignedFrom(h)
        {
          assert j !in MadeFrom(s, h);
        }
      }
      assert jobs == [jobs[0]];
      EnqueueKeepsInv(cfg, s, jobs[0]);
    }
  }

  /** A second reassignment of the same hail is more than the invariant allows. */
  lemma {:induction false} SecondBreaksInv(cfg: Config, s: State, h: HailId)
    requires Inv(cfg, s) && h < |s.hails| && Inv(cfg, Enqueue(s, [Reassign(h)]))
    ensures Unused(s, h)
  {
    var s' := Enqueue(s, [Reassign(h)]);
    var n := |s.jobs|;
    assert s'.jobs[n] == Reassign(h);
    forall k | 0 <= k < n
      ensures s.jobs[k] != Reassign(h) && (s.jobs[k].Place? ==> s.jobs[k].hail != h)
    {
      assert s'.jobs[k] == s.jobs[k];
      assert s'.jobs[k].Place? ==> PlacementFits(cfg, s', s'.jobs[k]);
    }
    forall j | 0 <= j < |s.hails|
      ensures j !in MadeFrom(s, h)
    {
      assert OriginFits(s', j);
    }
  }

  lemma {:induction false} ChoiceKeepsInvExactly(cfg: Config, s: State, h: HailId)
    requires Inv(cfg, s) && h < |s.hails|
    ensures Inv(cfg, Enqueue(s, FollowUp(h, s.hails[h].status))) <==>
            (s.hails[h].status.DeclinedByTaxi? ==> Unused(s, h))
  {
    if s.hails[h].status.DeclinedByTaxi? ==> Unused(s, h) {
      FirstKeepsInv(cfg, s, h);
    } else if Inv(cfg, Enqueue(s, [Reassign(h)])) {
      SecondBreaksInv(cfg, s, h);
    }
  }

  lemma {:induction false} FollowStepKeepsInvExactly(cfg: Config, s: FollowState, a: FollowAction)
    requires Inv(cfg, s.core)
    ensures Inv(cfg, FollowStep(cfg, s, a).core) <==> First(s, a)
  {
    if Enabled(s, a) {
      match a
      case Whole(action) => StepKeepsInv(cfg, s.core, action);
      case Commits(h, user, r) => CommitOnlyKeepsInv(cfg, s.core, h, user, r);
      case Follows(i) => ChoiceKeepsInvExactly(cfg, s.core, s.due[i]);
    }
  }

  ghost predicate AllFirst(cfg: Config, s: FollowState, actions: seq<FollowAction>)
    requires Keys(s.core)
    decreases |actions|
  {
    actions == [] || (First(s, actions[0]) && AllFirst(cfg, FollowStep(cfg, s, actions[0]), actions[1..]))
  }

  /** The invariant holds at every moment of the run. */
  ghost predicate AlwaysInv(cfg: Config, s: FollowState, actions: seq<FollowAction>)
    requires Keys(s.core)
    decreases |actions|
  {
    Inv(cfg, s.core) && (actions == [] || AlwaysInv(cfg, FollowStep(cfg, s, actions[0]), actions[1..]))
  }

  /**
   However requests, jobs and the second halves of requests are interleaved, the
   invariant holds throughout exactly when no second half calls a reassignment of
   a hail for which one was called before and is pending or has made a hail.
   */
  lemma {:induction false} InvariantHoldsExactlyWhenFirst(cfg: Config, s: FollowState, actions: seq<FollowAction>)
    requires Inv(cfg, s.core)
    ensures AlwaysInv(cfg, s, actions) <==> AllFirst(cfg, s, actions)
    decreases |actions|
  {
    if actions != [] {
      FollowStepKeepsInvExactly(cfg, s, actions[0]);
      if First(s, actions[0]) {
        InvariantHoldsExactlyWhenFirst(cfg, FollowStep(cfg, s, actions[0]), actions[1..]);
      }
    }
  }

  lemma {:induction false} EndKeepsInv(cfg: Config, s: FollowState, actions: seq<FollowAction>)
    requires Keys(s.core) && AlwaysInv(cfg, s, actions)
    ensures Inv(cfg, FollowRun(cfg, s, actions).core)
    decreases |actions|
  {
    if actions != [] {
      EndKeepsInv(cfg, FollowStep(cfg, s, actions[0]), actions[1..]);
    }
  }

  /** In such a run from an empty service no hail is the source of two. */
  lemma {:induction false} FirstSourcesAreUsedOnce(cfg: Config, s: State, actions: seq<FollowAction>, h: HailId)
    requires Initial(s) && AllFirst(cfg, FollowState(s, []), actions)
    ensures |MadeFrom(FollowRun(cfg, FollowState(s, []), actions).core, h)| <= 1
  {
    InvariantHoldsExactlyWhenFirst(cfg, FollowState(s, []), actions);
    EndKeepsInv(cfg, FollowState(s, []), actions);
    var end := FollowRun(cfg, FollowState(s, []), actions).core;
    if j :| j in MadeFrom(end, h) {
      SourceIsSpent(cfg, end, h, j);
    }
  }

  // -------------------------------------------- what always holds

  /** Hails and taxis agree, and timers carry what the table says. */
  ghost predicate Agrees(s: State) {
    && Keys(s) && RowsFaithful(s) && SingleActive(s) && Coupled(s) && NoStrandedTaxi(s)
    && forall k | 0 <= k < |s.jobs| && s.jobs[k].Timer? ::
         TimeoutFor(s.jobs[k].initial) == Some(TimeoutSpec(s.jobs[k].target, s.jobs[k].taxi))
  }

  /** What is enqueued after a commit changes neither hails nor taxis. */
  lemma {:induction false} QueueAgrees(s: State, s': State)
    requires Agrees(s) && s'.hails == s.hails && s'.taxis == s.taxis && Keys(s')
    requires forall k | 0 <= k < |s'.jobs| && s'.jobs[k].Timer? ::
               TimeoutFor(s'.jobs[k].initial) == Some(TimeoutSpec(s'.jobs[k].target, s'.jobs[k].taxi))
    ensures Agrees(s')
  {
    forall t | t in s.taxis && TaxiEngaged(s, t)
      ensures TaxiEngaged(s', t)
    {
      var i :| 0 <= i < |s.hails| && s.hails[i].taxi == t && Active(s, i);
      assert Active(s', i);
    }
  }

  lemma {:induction false} CommitOnlyAgrees(s: State, h: HailId, user: User, r: HailRequest)
    requires Agrees(s)
    ensures Agrees(CommitOnly(s, h, user, r))
  {
    var result := PutHailResult(s, h, user, r);
    if result.Ok? && result.value.Some? {
      var row, a := s.hails[h], result.value.value;
      TransitionStep(row, s.taxis[row.taxi].status, r.status.value, Some(user), r.phone, r.event);
      if a.changed {
        assert a.row.log[..|row.log|] == row.log;
        CommitKeepsAgreement(s, h, a.row, a.taxi);
      } else {
        assert s.taxis[row.taxi := s.taxis[row.taxi].(status := a.taxi)] == s.taxis;
        assert s.hails[h := a.row] == s.hails;
      }
    }
  }

  lemma {:induction false} PutHailAgrees(s: State, h: HailId, user: User, r: HailRequest)
    requires Agrees(s)
    ensures Agrees(PutHailStep(s, h, user, r))
  {
    CommitOnlyAgrees(s, h, user, r);
    QueueAgrees(CommitOnly(s, h, user, r), PutHailStep(s, h, user, r));
  }

  lemma {:induction false} PutTaxiAgrees(s: State, t: TaxiId, user: User, status: TaxiStatus, recent: bool)
    requires Agrees(s)
    ensures Agrees(PutTaxiStep(s, t, user, status, recent))
  {
    if PutTaxiCheck(s, t, user, status, recent).None? {
      var s' := PutTaxiStep(s, t, user, status, recent);
      forall i | 0 <= i < |s'.hails| && !Terminal(s'.hails[i].status)
        ensures s'.hails[i].taxi != t
      {
        assert Active(s, i);
      }
      forall x | x in s'.taxis && TaxiEngaged(s, x)
        ensures TaxiEngaged(s', x)
      {
        var i :| 0 <= i < |s.hails| && s.hails[i].taxi == x && Active(s, i);
        assert Active(s', i);
      }
    }
  }

  lemma {:induction false} SendAgrees(cfg: Config, s: State, h: HailId, around: Surroundings)
    requires Agrees(s) && h < |s.hails|
    ensures Agrees(SendStep(cfg, s, h, around))
  {
    SendEffectAdvances(cfg, s.hails[h], around);
    var e := SendEffectOn(cfg, s.hails[h], around);
    if e.Effect? {
      var taxi := if e.fails then Free else s.taxis[s.hails[h].taxi].status;
      CommitKeepsAgreement(s, h, e.row, taxi);
      QueueAgrees(Commit(s, h, e.row, taxi), SendStep(cfg, s, h, around));
    }
  }

  lemma {:induction false} TimerAgrees(s: State, h: HailId, initial: HailStatus, target: HailStatus, taxi: TaxiStatus)
    requires Agrees(s) && h < |s.hails| && TimeoutFor(initial) == Some(TimeoutSpec(target, taxi))
    ensures Agrees(TimerStep(s, h, initial, target, taxi))
  {
    if s.hails[h].status == initial {
      var row := Changed(s.hails[h], target, None, TimedOut, "");
      TimerRowAdvances(s.hails[h], target);
      CommitKeepsAgreement(s, h, row, taxi);
      QueueAgrees(Commit(s, h, row, taxi), TimerStep(s, h, initial, target, taxi));
    }
  }

  lemma {:induction false} InsertAgrees(s: State, row: HailRow)
    requires Agrees(s) && row.taxi in s.taxis && !TaxiEngaged(s, row.taxi) && Faithful(row) && row.status == Received
    ensures Agrees(Insert(s, row))
  {
    InsertKeepsAgreement(s, row);
  }

  lemma {:induction false} PlaceAgrees(s: State, h: HailId, t: TaxiId, now: real)
    requires Agrees(s) && h < |s.hails| && t in s.taxis
    ensures Agrees(PlaceStep(s, h, t, now))
  {
    if !TaxiEngaged(s, t) {
      InsertAgrees(s, ReassignRow(s, h, t, now));
    }
  }

  lemma {:induction false} JobAgrees(cfg: Config, s: State, k: nat, around: Surroundings)
    requires Agrees(s) && k < |s.jobs| && !Waits(s, s.jobs[k])
    ensures Agrees(Step(cfg, s, RunJob(k, around)))
  {
    var s0 := s.(jobs := Without(s.jobs, k));
    WithoutIsSubsequence(s.jobs, k);
    QueueAgrees(s, s0);
    match s.jobs[k]
    case Send(h) => SendAgrees(cfg, s0, h, around);
    case Timer(h, initial, target, taxi) => TimerAgrees(s0, h, initial, target, taxi);
    case Reassign(h) => QueueAgrees(s0, ReassignStep(cfg, s0, h, around));
    case Place(h, t, now) => PlaceAgrees(s0, h, t, now);
  }

  lemma {:induction false} StepAgrees(cfg: Config, s: State, a: Action)
    requires Agrees(s)
    ensures Agrees(Step(cfg, s, a))
  {
    match a
    case Create(r) => if CreateCheck(cfg, s, r).None? { InsertAgrees(s, CreateRow(s, r)); }
    case PutHail(h, user, r) => PutHailAgrees(s, h, user, r);
    case PutTaxi(t, user, status, recent) => PutTaxiAgrees(s, t, user, status, recent);
    case Suspend(t, user) => PutTaxiAgrees(s, t, user, Off, true);
    case RunJob(k, around) => if k < |s.jobs| && !Waits(s, s.jobs[k]) { JobAgrees(cfg, s, k, around); }
  }

  /**
   However often reassignments are called, logs stay lawful, a taxi has one active
   hail at most, and that hail fixes its status.
   */
  lemma {:induction false} EveryInterleavingAgrees(cfg: Config, s: FollowState, actions: seq<FollowAction>)
    requires Agrees(s.core)
    ensures Agrees(FollowRun(cfg, s, actions).core)
    decreases |actions|
  {
    if actions != [] {
      var s' := FollowStep(cfg, s, actions[0]);
      if Enabled(s, actions[0]) {
        match actions[0]
        case Whole(action) => StepAgrees(cfg, s.core, action);
        case Commits(h, user, r) => CommitOnlyAgrees(s.core, h, user, r);
        case Follows(_) => QueueAgrees(s.core, s'.core);
      }
      EveryInterleavingAgrees(cfg, s', actions[1..]);
    }
  }

  // -------------------------------------------- a run

  const ACCEPTED := RunJob(0, Surroundings(101.0, Answered(200, Decoded(JArray([]))), []))

  const AT_OPERATOR := Changed(Asked(0, 7), ReceivedByOperator, None, NoReason, "")
  const AT_TAXI := Changed(AT_OPERATOR, ReceivedByTaxi, Some(1), NoReason, "")
  const REFUSED := Changed(AT_TAXI, DeclinedByTaxi, Some(1), NoReason, "")

  /** The timer of the status received_by_operator, which is still to run. */
  const TIMER := TimerFor(0, ReceivedByOperator)

  /** Both requests have committed, and neither has chosen what follows. */
  const COMMITTED := FollowState(State([REFUSED], THREE_TAXIS, TIMER), [0, 0])

  lemma {:induction false} OperatorAccepts()
    ensures
      Step(NETWORKED, Step(NETWORKED, State([], THREE_TAXIS, []), Ask(0, 7)), ACCEPTED) ==
      State([AT_OPERATOR], THREE_TAXIS[7 := Description(1, Answering)], TIMER)
  {
    var s := Step(NETWORKED, State([], THREE_TAXIS, []), Ask(0, 7));
    assert CreateCheck(NETWORKED, State([], THREE_TAXIS, []), Ask(0, 7).request).None?;
    assert s == State([Asked(0, 7)], THREE_TAXIS[7 := Description(1, Answering)], [Send(0)]);
    assert SendEffectOn(NETWORKED, Asked(0, 7), ACCEPTED.around) == Effect(AT_OPERATOR, false);
    assert Without(s.jobs, 0) == [];
  }

  lemma {:induction false} FirstCommits()
    ensures
      FollowStep(NETWORKED, FollowState(State([AT_OPERATOR], THREE_TAXIS[7 := Description(1, Answering)], TIMER), []),
                 Commits(0, OPERATOR, To(ReceivedByTaxi))) ==
      FollowState(State([AT_TAXI], THREE_TAXIS[7 := Description(1, Answering)], TIMER), [0])
  {
    assert ProcessedEvent(AT_OPERATOR.log, "").None?;
  }

  lemma {:induction false} SecondCommits()
    ensures
      FollowStep(NETWORKED, FollowState(State([AT_TAXI], THREE_TAXIS[7 := Description(1, Answering)], TIMER), [0]),
                 Commits(0, OPERATOR, To(DeclinedByTaxi))) == COMMITTED
  {
    assert ProcessedEvent(AT_TAXI.log, "").None?;
  }

  /** Two reassignments of one hail are pending. */
  const TWICE := State([REFUSED], THREE_TAXIS, TIMER + [Reassign(0), Reassign(0)])

  lemma {:induction false} BothFollow()
    ensures FollowStep(NETWORKED, FollowStep(NETWORKED, COMMITTED, Follows(0)), Follows(0)) == FollowState(TWICE, [])
  {
    var s1 := FollowStep(NETWORKED, COMMITTED, Follows(0));
    assert COMMITTED.due[..0] + COMMITTED.due[1..] == [0];
    assert s1 == FollowState(State([REFUSED], THREE_TAXIS, TIMER + [Reassign(0)]), [0]);
    assert [0][..0] + [0][1..] == [];
    assert TIMER + [Reassign(0)] + [Reassign(0)] == TIMER + [Reassign(0), Reassign(0)];
  }

  /**
   The operator says that the driver has the request and, before that request has
   chosen its timer, that the driver refuses: each of the two then calls the
   reassignment of the hail.
   */
  lemma {:induction false} ReassignmentIsCalledTwice()
    ensures
      var s := Step(NETWORKED, Step(NETWORKED, State([], THREE_TAXIS, []), Ask(0, 7)), ACCEPTED);
      var s1 := FollowStep(NETWORKED, FollowState(s, []), Commits(0, OPERATOR, To(ReceivedByTaxi)));
      var s2 := FollowStep(NETWORKED, s1, Commits(0, OPERATOR, To(DeclinedByTaxi)));
      && Initial(State([], THREE_TAXIS, []))
      && FollowStep(NETWORKED, FollowStep(NETWORKED, s2, Follows(0)), Follows(0)) == FollowState(TWICE, [])
  {
    OperatorAccepts();
    FirstCommits();
    SecondCommits();
    BothFollow();
  }

  const NEAR_8 := Surroundings(102.0, Unreachable, [8])
  const NEAR_9 := Surroundings(103.0, Unreachable, [9])

  const SECOND := NewRow(8, Session(2, 0, 0), 5, ReassignedFrom(0), 102.0, None, ReassignedAfter(DeclinedByTaxi))
  const SECOND_DECLINED := Changed(SECOND, DeclinedByCustomer, Some(2), NoReason, "")
  const THIRD := NewRow(9, Session(2, 0, 0), 1, ReassignedFrom(0), 103.0, None, ReassignedAfter(DeclinedByTaxi))

  lemma {:induction false} SessionOfOne(row: HailRow)
    ensures SessionSize([row], row.session) == 1
  {
    assert [row][..0] == [];
  }

  /** The first of the two makes a hail. */
  lemma {:induction false} FirstMakesAHail()
    ensures
      var s1 := Step(NETWORKED, TWICE, RunJob(1, NEAR_8));
      Step(NETWORKED, s1, RunJob(2, NEAR_8)) ==
      State([REFUSED, SECOND], THREE_TAXIS[8 := Description(5, Answering)], TIMER + [Reassign(0), Send(1)])
  {
    var s0 := TWICE.(jobs := Without(TWICE.jobs, 1));
    assert Without(TWICE.jobs, 1) == TIMER + [Reassign(0)];
    SessionOfOne(REFUSED);
    assert Contacted(s0, Session(2, 0, 0)) == {7};
    assert FirstCandidate(s0, [8], {7}) == Some(8);
    var s1 := Step(NETWORKED, TWICE, RunJob(1, NEAR_8));
    assert s1.jobs == TIMER + [Reassign(0), Place(0, 8, 102.0)];
    assert Without(s1.jobs, 2) == TIMER + [Reassign(0)];
  }

  lemma {:induction false} SecondIsDeclined()
    ensures
      var s := State([REFUSED, SECOND], THREE_TAXIS[8 := Description(5, Answering)], TIMER + [Reassign(0), Send(1)]);
      Step(NETWORKED, s, PutHail(1, CLIENT, To(DeclinedByCustomer))) ==
      State([REFUSED, SECOND_DECLINED], THREE_TAXIS, TIMER + [Reassign(0), Send(1)])
  {
    assert ProcessedEvent(SECOND.log, "").None?;
  }

  lemma {:induction false} SecondChooses()
    ensures
      var s := State([REFUSED, SECOND_DECLINED], THREE_TAXIS, TIMER + [Reassign(0), Send(1)]);
      Step(NETWORKED, s, RunJob(1, NEAR_9)) ==
      State([REFUSED, SECOND_DECLINED], THREE_TAXIS, TIMER + [Send(1), Place(0, 9, 103.0)])
  {
    var s := State([REFUSED, SECOND_DECLINED], THREE_TAXIS, TIMER + [Reassign(0), Send(1)]);
    var s0 := s.(jobs := Without(s.jobs, 1));
    assert Without(s.jobs, 1) == TIMER + [Send(1)];
    assert [REFUSED, SECOND_DECLINED][..1] == [REFUSED];
    SessionOfOne(REFUSED);
    assert SessionSize(s0.hails, Session(2, 0, 0)) == 2;
    assert Contacted(s0, Session(2, 0, 0)) == {7, 8};
    assert FirstCandidate(s0, [9], {7, 8}) == Some(9);
  }

  lemma {:induction false} SecondMakesAHail()
    ensures
      var s := State([REFUSED, SECOND_DECLINED], THREE_TAXIS, TIMER + [Send(1), Place(0, 9, 103.0)]);
      Step(NETWORKED, s, RunJob(2, NEAR_9)).hails == [REFUSED, SECOND_DECLINED, THIRD]
  {
    var s := State([REFUSED, SECOND_DECLINED], THREE_TAXIS, TIMER + [Send(1), Place(0, 9, 103.0)]);
    assert Without(s.jobs, 2) == TIMER + [Send(1)];
  }

  /** Both reassignments run, one after the other's hail is over: the refused hail is the source of two. */
  lemma {:induction false} SourceIsUsedTwice()
    ensures
      var s2 := Step(NETWORKED, Step(NETWORKED, TWICE, RunJob(1, NEAR_8)), RunJob(2, NEAR_8));
      var s3 := Step(NETWORKED, s2, PutHail(1, CLIENT, To(DeclinedByCustomer)));
      MadeFrom(Step(NETWORKED, Step(NETWORKED, s3, RunJob(1, NEAR_9)), RunJob(2, NEAR_9)), 0) == {1, 2}
  {
    FirstMakesAHail();
    SecondIsDeclined();
    SecondChooses();
    SecondMakesAHail();
  }
}
