/**
 What holds over whole runs of the dispatch protocol: the agreement of hails and
 taxis, histories that only grow, requests that can be repeated for ever, and
 the chain of hails of one search.
 */
module DispatchHistory {
  import opened Wrappers
  import opened HailTypes
  import opened HailMachine
  import opened Dispatch
  import opened DispatchInvariant

  // ------------------------------------------------- hails and taxis agree

  ghost function ActiveOn(s: State, t: TaxiId): set<HailId> {
    set i | 0 <= i < |s.hails| && s.hails[i].taxi == t && !Terminal(s.hails[i].status)
  }

  /**
   After any run, a taxi has one active hail or none; the hail fixes the taxi's
   status; and a taxi that is free or off, answering or on its way says by that
   alone whether it has one.
   */
  lemma {:induction false} HailsAndTaxisAgree(cfg: Config, s: State, actions: seq<Action>, t: TaxiId)
    requires Initial(s) && t in Run(cfg, s, actions).taxis
    ensures
      var s' := Run(cfg, s, actions);
      var active, status := ActiveOn(s', t), s'.taxis[t].status;
      && |active| <= 1
      && (forall i | i in active :: status == Engaged(s'.hails[i].status))
      && (status.Free? || status.Off? ==> active == {})
      && (status.Answering? || status.Oncoming? ==> |active| == 1)
  {
    ReachableInv(cfg, s, actions);
    var s' := Run(cfg, s, actions);
    var active := ActiveOn(s', t);
    if i :| i in active {
      assert active == {i} by {
        forall j | j in active
          ensures j == i
        {
        }
      }
    }
    if !Updatable(s'.taxis[t].status) {
      var i :| 0 <= i < |s'.hails| && s'.hails[i].taxi == t && Active(s', i);
      assert i in active;
    }
  }

  /** No hail ever reaches sent_to_operator, and a history has seven entries at most. */
  lemma {:induction false} HistoriesAreShort(cfg: Config, s: State, actions: seq<Action>, h: HailId)
    requires Initial(s) && h < |Run(cfg, s, actions).hails|
    ensures
      var row := Run(cfg, s, actions).hails[h];
      Faithful(row) && |row.log| <= 7 && !Visited(row, SentToOperator)
  {
    ReachableInv(cfg, s, actions);
    var row := Run(cfg, s, actions).hails[h];
    FaithfulLogIsShort(row);
    forall k | 0 <= k < |row.log|
      ensures row.log[k].to != SentToOperator
    {
      if k > 0 {
        assert Linked(row.log, k);
        EdgesClimb(row.log[k - 1].to, row.log[k].to);
      }
    }
  }

  // ------------------------------------------------- histories only grow

  ghost predicate SameHail(row: HailRow, row': HailRow) {
    && row' == row.(status := row'.status, phone := row'.phone, log := row'.log)
    && row.log <= row'.log
    && (row'.log == row.log ==> row' == row)
  }

  ghost predicate Grows(s: State, s': State) {
    && |s.hails| <= |s'.hails|
    && forall i | 0 <= i < |s.hails| :: SameHail(s.hails[i], s'.hails[i])
  }

  lemma {:induction false} CommitGrows(s: State, h: HailId, row: HailRow, taxi: TaxiStatus)
    requires Keys(s) && h < |s.hails| && (row == s.hails[h] || Advances(s.hails[h], row))
    ensures Grows(s, Commit(s, h, row, taxi))
  {
  }

  lemma {:induction false} PutHailGrows(cfg: Config, s: State, h: HailId, user: User, r: HailRequest)
    requires Inv(cfg, s)
    ensures Grows(s, PutHailStep(s, h, user, r))
  {
    var result := PutHailResult(s, h, user, r);
    if result.Ok? && result.value.Some? {
      var row, a := s.hails[h], result.value.value;
      TransitionStep(row, s.taxis[row.taxi].status, r.status.value, Some(user), r.phone, r.event);
      if a.changed {
        assert a.row.log[..|row.log|] == row.log;
      }
      CommitGrows(s, h, a.row, a.taxi);
    }
  }

  lemma {:induction false} SendGrows(cfg: Config, s: State, h: HailId, around: Surroundings)
    requires Keys(s) && h < |s.hails| && Faithful(s.hails[h])
    ensures Grows(s, SendStep(cfg, s, h, around))
  {
  }

  lemma {:induction false} TimerGrows(s: State, h: HailId, initial: HailStatus, target: HailStatus, taxi: TaxiStatus)
    requires Keys(s) && h < |s.hails| && Faithful(s.hails[h])
    requires TimeoutFor(initial) == Some(TimeoutSpec(target, taxi))
    ensures Grows(s, TimerStep(s, h, initial, target, taxi))
  {
  }

  lemma {:induction false} JobGrows(cfg: Config, s: State, job: Job, around: Surroundings)
    requires Inv(cfg, s) && JobFits(s, job) && (job.Place? ==> job.choice in s.taxis)
    ensures Grows(s, JobStep(cfg, s, job, around))
  {
    match job
    case Send(h) => SendGrows(cfg, s, h, around);
    case Timer(h, initial, target, taxi) => TimerGrows(s, h, initial, target, taxi);
    case _ =>
  }

  lemma {:induction false} StepGrows(cfg: Config, s: State, a: Action)
    requires Inv(cfg, s)
    ensures Grows(s, Step(cfg, s, a))
  {
    match a
    case PutHail(h, user, r) => PutHailGrows(cfg, s, h, user, r);
    case RunJob(k, around) =>
      if k < |s.jobs| && !Waits(s, s.jobs[k]) {
        assert JobFits(s, s.jobs[k]);
        DequeueKeepsInv(cfg, s, k);
        JobGrows(cfg, s.(jobs := Without(s.jobs, k)), s.jobs[k], around);
      }
    case _ =>
  }

  lemma {:induction false} RunGrows(cfg: Config, s: State, actions: seq<Action>)
    requires Inv(cfg, s)
    ensures Grows(s, Run(cfg, s, actions))
    decreases |actions|
  {
    if actions != [] {
      StepKeepsInv(cfg, s, actions[0]);
      StepGrows(cfg, s, actions[0]);
      RunGrows(cfg, Step(cfg, s, actions[0]), actions[1..]);
    }
  }

  /** A hail after a run is the hail before it with a longer history. */
  lemma {:induction false} HailAfterRun(cfg: Config, s: State, actions: seq<Action>, h: HailId)
    requires Inv(cfg, s) && h < |s.hails|
    ensures
      var s' := Run(cfg, s, actions);
      && Keys(s') && h < |s'.hails|
      && SameHail(s.hails[h], s'.hails[h]) && Faithful(s.hails[h]) && Faithful(s'.hails[h])
  {
    RunKeepsInv(cfg, s, actions);
    RunGrows(cfg, s, actions);
  }

  // ------------------------------------------------- repeated requests

  /** A request whose status was accepted leaves that status in the hail's history. */
  lemma {:induction false} AcceptedIsVisited(cfg: Config, s: State, h: HailId, user: User, r: HailRequest)
    requires Inv(cfg, s) && r.status.Some? && PutHailResult(s, h, user, r).Ok?
    ensures
      var s' := Step(cfg, s, PutHail(h, user, r));
      h < |s'.hails| && Visited(s'.hails[h], r.status.value)
  {
    var a := PutHailResult(s, h, user, r).value.value;
    TransitionStep(s.hails[h], s.taxis[s.hails[h].taxi].status, r.status.value, Some(user), r.phone, r.event);
    assert a.changed ==> a.row.log[|a.row.log| - 1].to == r.status.value;
  }

  lemma {:induction false} VisitedIsKept(row: HailRow, row': HailRow, status: HailStatus)
    requires SameHail(row, row') && Visited(row, status)
    ensures Visited(row', status)
  {
  }

  lemma {:induction false} VisitedRequestIsInert(s: State, h: HailId, user: User, r: HailRequest)
    requires Keys(s) && h < |s.hails| && Faithful(s.hails[h])
    requires r.status.Some? && Visited(s.hails[h], r.status.value)
    ensures PutHailStep(s, h, user, r) == s
  {
    var row := s.hails[h];
    VisitedStatusIsInert(row, s.taxis[row.taxi].status, r.status.value, Some(user), r.phone, r.event);
    assert s.hails[h := row] == s.hails;
    assert s.taxis[row.taxi := s.taxis[row.taxi].(status := s.taxis[row.taxi].status)] == s.taxis;
  }

  /**
   Once a request has been accepted, asking for the same status again moves
   nothing, after any further requests and jobs, whoever asks, and with or
   without an event id.
   */
  lemma {:induction false} AcceptedRequestsAreIdempotent(cfg: Config, s: State, h: HailId, user: User, r: HailRequest,
                                                         later: seq<Action>, user': User, r': HailRequest)
    requires Inv(cfg, s) && r.status.Some? && PutHailResult(s, h, user, r).Ok?
    requires r'.status == r.status
    ensures
      var s' := Run(cfg, Step(cfg, s, PutHail(h, user, r)), later);
      Step(cfg, s', PutHail(h, user', r')) == s'
  {
    var s1 := Step(cfg, s, PutHail(h, user, r));
    StepKeepsInv(cfg, s, PutHail(h, user, r));
    AcceptedIsVisited(cfg, s, h, user, r);
    HailAfterRun(cfg, s1, later, h);
    VisitedIsKept(s1.hails[h], Run(cfg, s1, later).hails[h], r.status.value);
    VisitedRequestIsInert(Run(cfg, s1, later), h, user', r');
  }

  /** A status that a hail has left is never its status again. */
  lemma {:induction false} LeftForEver(cfg: Config, s: State, actions: seq<Action>, h: HailId, status: HailStatus)
    requires Inv(cfg, s) && h < |s.hails| && Visited(s.hails[h], status) && s.hails[h].status != status
    ensures
      var s' := Run(cfg, s, actions);
      h < |s'.hails| && s'.hails[h].status != status
  {
    HailAfterRun(cfg, s, actions, h);
    LeftByHail(s.hails[h], Run(cfg, s, actions).hails[h], status);
  }

  lemma {:induction false} LeftByHail(row: HailRow, row': HailRow, status: HailStatus)
    requires row.log != [] && row.log[|row.log| - 1].to == row.status
    requires Faithful(row') && SameHail(row, row') && Visited(row, status) && row.status != status
    ensures row'.status != status
  {
    var k :| 0 <= k < |row.log| && row.log[k].to == status;
    assert |row.log| == |row'.log| ==> row.log == row'.log;
    LogClimbs(row', k, |row'.log| - 1);
  }

  /** A timer for a status that its hail has left does nothing, however late and however often it runs. */
  lemma {:induction false} LateTimersAreInert(cfg: Config, s: State, later: seq<Action>, h: HailId, initial: HailStatus,
                                              target: HailStatus, taxi: TaxiStatus)
    requires Inv(cfg, s) && h < |s.hails| && Visited(s.hails[h], initial) && s.hails[h].status != initial
    ensures
      var s' := Run(cfg, s, later);
      h < |s'.hails| && TimerStep(s', h, initial, target, taxi) == s'
  {
    LeftForEver(cfg, s, later, h, initial);
  }

  // ------------------------------------------------- the chain of one search

  ghost predicate RequestedOnce(s: State, session: Session) {
    forall i, j | 0 <= i < j < |s.hails| ::
      s.hails[i].session == session && s.hails[j].session == session
      ==> s.hails[i].origin.ReassignedFrom? || s.hails[j].origin.ReassignedFrom?
  }

  lemma {:induction false} RefusalFrees(cfg: Config, s: State, h: HailId, user: User, r: HailRequest)
    requires Keys(s) && r.status == Some(DeclinedByTaxi)
    requires PutHailResult(s, h, user, r).Ok? && PutHailResult(s, h, user, r).value.value.changed
    ensures
      var s' := Step(cfg, s, PutHail(h, user, r));
      && h < |s.hails| == |s'.hails| && s'.hails[h].taxi == s.hails[h].taxi && s'.hails[h].session == s.hails[h].session
      && s'.taxis[s.hails[h].taxi].status == Free && Reassign(h) in s'.jobs
  {
  }

  /** A choice of this taxi is pending in the session. */
  ghost predicate ChosenAlready(s: State, session: Session, t: TaxiId) {
    exists k | 0 <= k < |s.jobs| && s.jobs[k].Place? && s.jobs[k].hail < |s.hails| ::
      s.hails[s.jobs[k].hail].session == session && s.jobs[k].choice == t
  }

  /** The session has used the taxi, and no choice of it is pending there. */
  ghost predicate Excluded(s: State, session: Session, t: TaxiId) {
    t in Contacted(s, session) && !ChosenAlready(s, session, t)
  }

  /** No hail made by a reassignment since then gives the session this taxi. */
  ghost predicate NotPlacedSince(s: State, n: nat, session: Session, t: TaxiId) {
    forall j | n <= j < |s.hails| && s.hails[j].session == session && s.hails[j].origin.ReassignedFrom? ::
      s.hails[j].taxi != t
  }

  /** The jobs after a step: those before it, and what it adds. */
  ghost predicate AddsNoChoice(s: State, s': State, session: Session, t: TaxiId) {
    forall job | job in s'.jobs && job.Place? && job !in s.jobs ::
      job.hail < |s.hails| && (s.hails[job.hail].session == session ==> job.choice != t)
  }

  lemma {:induction false} ExcludedIsKept(s: State, s': State, session: Session, t: TaxiId)
    requires Keys(s) && Excluded(s, session, t) && Grows(s, s') && AddsNoChoice(s, s', session, t)
    ensures Excluded(s', session, t)
  {
  }

  lemma {:induction false} ReassignExcludes(cfg: Config, s: State, h: HailId, around: Surroundings, session: Session,
                                            t: TaxiId)
    requires h < |s.hails| && t in Contacted(s, session)
    ensures AddsNoChoice(s, ReassignStep(cfg, s, h, around), session, t)
    ensures ReassignStep(cfg, s, h, around).hails == s.hails
  {
  }

  /** The job at k runs on what is left of the queue; nothing it adds is a choice of the taxi. */
  lemma {:induction false} JobExcludes(cfg: Config, s: State, k: nat, around: Surroundings, session: Session, t: TaxiId)
    requires Keys(s) && Excluded(s, session, t) && k < |s.jobs| && !Waits(s, s.jobs[k])
    ensures
      var s' := Step(cfg, s, RunJob(k, around));
      AddsNoChoice(s, s', session, t) && NotPlacedSince(s', |s.hails|, session, t)
  {
    var s0 := s.(jobs := Without(s.jobs, k));
    WithoutIsSubsequence(s.jobs, k);
    match s.jobs[k]
    case Reassign(h) => ReassignExcludes(cfg, s0, h, around, session, t);
    case _ =>
  }

  /** No request adds a choice, and none makes a reassigned hail. */
  lemma {:induction false} RequestExcludes(cfg: Config, s: State, a: Action, session: Session, t: TaxiId)
    requires Keys(s) && !a.RunJob?
    ensures
      var s' := Step(cfg, s, a);
      AddsNoChoice(s, s', session, t) && NotPlacedSince(s', |s.hails|, session, t)
  {
  }

  lemma {:induction false} StepExcludes(cfg: Config, s: State, a: Action, session: Session, t: TaxiId)
    requires Inv(cfg, s) && Excluded(s, session, t)
    ensures
      var s' := Step(cfg, s, a);
      Excluded(s', session, t) && NotPlacedSince(s', |s.hails|, session, t)
  {
    StepGrows(cfg, s, a);
    if a.RunJob? && a.index < |s.jobs| && !Waits(s, s.jobs[a.index]) {
      JobExcludes(cfg, s, a.index, a.around, session, t);
    } else if !a.RunJob? {
      RequestExcludes(cfg, s, a, session, t);
    }
    ExcludedIsKept(s, Step(cfg, s, a), session, t);
  }

  lemma {:induction false} RunExcludes(cfg: Config, s: State, actions: seq<Action>, session: Session, t: TaxiId)
    requires Inv(cfg, s) && Excluded(s, session, t)
    ensures NotPlacedSince(Run(cfg, s, actions), |s.hails|, session, t)
    decreases |actions|
  {
    if actions != [] {
      var s' := Step(cfg, s, actions[0]);
      StepKeepsInv(cfg, s, actions[0]);
      StepExcludes(cfg, s, actions[0], session, t);
      RunExcludes(cfg, s', actions[1..], session, t);
      RunGrows(cfg, s', actions[1..]);
      var s2 := Run(cfg, s', actions[1..]);
      forall j | |s.hails| <= j < |s2.hails| && s2.hails[j].session == session && s2.hails[j].origin.ReassignedFrom?
        ensures s2.hails[j].taxi != t
      {
        if j < |s'.hails| {
          assert s'.hails[j].session == session;
        }
      }
    }
  }

  /**
   A driver's refusal frees the taxi and leaves a reassignment pending; and no
   later reassignment in the same session picks that taxi again, unless one
   that had chosen it was already under way.
   */
  lemma {:induction false} RefusalFreesAndExcludes(cfg: Config, s: State, h: HailId, user: User, r: HailRequest,
                                                   later: seq<Action>)
    requires Inv(cfg, s) && r.status == Some(DeclinedByTaxi)
    requires PutHailResult(s, h, user, r).Ok? && PutHailResult(s, h, user, r).value.value.changed
    requires !ChosenAlready(s, s.hails[h].session, s.hails[h].taxi)
    ensures
      var s1 := Step(cfg, s, PutHail(h, user, r));
      && s1.taxis[s.hails[h].taxi].status == Free && Reassign(h) in s1.jobs
      && NotPlacedSince(Run(cfg, s1, later), |s.hails|, s.hails[h].session, s.hails[h].taxi)
  {
    RefusalFrees(cfg, s, h, user, r);
    StepKeepsInv(cfg, s, PutHail(h, user, r));
    assert Excluded(s, s.hails[h].session, s.hails[h].taxi);
    StepExcludes(cfg, s, PutHail(h, user, r), s.hails[h].session, s.hails[h].taxi);
    RunExcludes(cfg, Step(cfg, s, PutHail(h, user, r)), later, s.hails[h].session, s.hails[h].taxi);
  }

  /** The first hail of a session cannot come from a reassignment. */
  lemma {:induction false} SessionStartsWithRequest(cfg: Config, s: State, j: HailId)
    requires Inv(cfg, s) && j < |s.hails| && s.hails[j].origin.ReassignedFrom?
    ensures exists i | 0 <= i < j :: s.hails[i].session == s.hails[j].session && s.hails[i].origin.Requested?
  {
    assert OriginFits(s, j);
    var source := s.hails[j].origin.source;
    if s.hails[source].origin.ReassignedFrom? {
      SessionStartsWithRequest(cfg, s, source);
    }
  }

  /** Two hails of a session that the customer opened once have different taxis. */
  lemma {:induction false} ChainTaxisDiffer(cfg: Config, s: State, session: Session, i: HailId, j: HailId)
    requires Inv(cfg, s) && RequestedOnce(s, session) && i < j < |s.hails|
    requires s.hails[i].session == session && s.hails[j].session == session
    ensures s.hails[i].taxi != s.hails[j].taxi
  {
    assert OriginFits(s, j);
    if s.hails[i].origin.ReassignedFrom? {
      SessionStartsWithRequest(cfg, s, i);
    } else if s.hails[j].origin.ReassignedFrom? {
      OnlyFirstIsRequested(cfg, s, session, i, s.hails[j].origin.source);
    }
  }

  /** In a session that the customer opened once, no hail comes before the one that was asked for. */
  lemma {:induction false} OnlyFirstIsRequested(cfg: Config, s: State, session: Session, i: HailId, j: HailId)
    requires Inv(cfg, s) && RequestedOnce(s, session) && i < |s.hails| && j < |s.hails|
    requires s.hails[i].session == session && s.hails[j].session == session && s.hails[i].origin.Requested?
    ensures i <= j
  {
    if s.hails[j].origin.ReassignedFrom? {
      SessionStartsWithRequest(cfg, s, j);
    }
  }

  /**
   In a session that the customer opened once, no taxi is asked twice: a
   driver who refused, though free again, is never picked again; and the
   session stays within the limit.
   */
  lemma {:induction false} ChainAsksEachTaxiOnce(cfg: Config, s: State, actions: seq<Action>, session: Session)
    requires Initial(s) && RequestedOnce(Run(cfg, s, actions), session)
    ensures
      var s' := Run(cfg, s, actions);
      && (forall i, j | 0 <= i < j < |s'.hails| ::
            s'.hails[i].session == session && s'.hails[j].session == session ==> s'.hails[i].taxi != s'.hails[j].taxi)
      && SessionSize(s'.hails, session) <= if cfg.candidateLimit == 0 then 1 else cfg.candidateLimit
  {
    ReachableInv(cfg, s, actions);
    var s' := Run(cfg, s, actions);
    forall i, j | 0 <= i < j < |s'.hails| && s'.hails[i].session == session && s'.hails[j].session == session
      ensures s'.hails[i].taxi != s'.hails[j].taxi
    {
      ChainTaxisDiffer(cfg, s', session, i, j);
    }
    ChainSize(cfg, s', session);
  }

  lemma {:induction false} NoneRequestedAfter(cfg: Config, s: State, session: Session, h: HailId, n: nat)
    requires Inv(cfg, s) && RequestedOnce(s, session) && h < |s.hails| && s.hails[h].session == session
    requires n <= |s.hails|
    ensures RequestedAfter(s.hails[..n], session, h) == 0
  {
    if n > 0 {
      NoneRequestedAfter(cfg, s, session, h, n - 1);
      assert s.hails[..n][..n - 1] == s.hails[..n - 1];
      if s.hails[n - 1].session == session && s.hails[n - 1].origin.Requested? {
        OnlyFirstIsRequested(cfg, s, session, n - 1, h);
      }
    }
  }

  lemma {:induction false} NoHailNoSize(hails: seq<HailRow>, session: Session)
    requires forall i | 0 <= i < |hails| :: hails[i].session != session
    ensures SessionSize(hails, session) == 0
  {
    if hails != [] {
      NoHailNoSize(hails[..|hails| - 1], session);
    }
  }

  /** The hail that was asked for is the first of a session that the customer opened once. */
  lemma {:induction false} RequestedIsFirst(cfg: Config, s: State, n: HailId)
    requires Inv(cfg, s) && n < |s.hails| && s.hails[n].origin.Requested?
    requires RequestedOnce(s, s.hails[n].session)
    ensures SessionSize(s.hails[..n + 1], s.hails[n].session) == 1
  {
    forall i | 0 <= i < n
      ensures s.hails[i].session != s.hails[n].session
    {
      if s.hails[i].session == s.hails[n].session {
        OnlyFirstIsRequested(cfg, s, s.hails[n].session, n, i);
      }
    }
    NoHailNoSize(s.hails[..n], s.hails[n].session);
    assert s.hails[..n + 1][..n] == s.hails[..n];
  }

  /** A reassigned hail leaves a session that the customer opened once within the limit. */
  lemma {:induction false} ReassignedIsWithinLimit(cfg: Config, s: State, n: HailId)
    requires Inv(cfg, s) && n < |s.hails| && s.hails[n].origin.ReassignedFrom?
    requires RequestedOnce(s, s.hails[n].session)
    ensures SessionSize(s.hails[..n + 1], s.hails[n].session) <= cfg.candidateLimit
  {
    assert OriginFits(s, n) && SizeFits(cfg, s.hails, n);
    NoneRequestedAfter(cfg, s, s.hails[n].session, s.hails[n].origin.source, n + 1);
  }

  /** The size of a session is its size when its last hail was made. */
  lemma {:induction false} SizeAtLastHail(hails: seq<HailRow>, session: Session, bound: nat, n: nat)
    requires n <= |hails|
    requires forall i | 0 <= i < n && hails[i].session == session :: SessionSize(hails[..i + 1], session) <= bound
    ensures SessionSize(hails[..n], session) <= bound
  {
    if n > 0 && hails[n - 1].session != session {
      SizeAtLastHail(hails, session, bound, n - 1);
      assert hails[..n][..n - 1] == hails[..n - 1];
    }
  }

  lemma {:induction false} ChainSize(cfg: Config, s: State, session: Session)
    requires Inv(cfg, s) && RequestedOnce(s, session)
    ensures SessionSize(s.hails, session) <= if cfg.candidateLimit == 0 then 1 else cfg.candidateLimit
  {
    var bound := if cfg.candidateLimit == 0 then 1 else cfg.candidateLimit;
    forall i | 0 <= i < |s.hails| && s.hails[i].session == session
      ensures SessionSize(s.hails[..i + 1], session) <= bound
    {
      if s.hails[i].origin.ReassignedFrom? {
        ReassignedIsWithinLimit(cfg, s, i);
      } else {
        RequestedIsFirst(cfg, s, i);
      }
    }
    SizeAtLastHail(s.hails, session, bound, |s.hails|);
    assert s.hails[..|s.hails|] == s.hails;
  }

  ghost function MadeFrom(s: State, h: HailId): set<HailId> {
    set j | 0 <= j < |s.hails| && s.hails[j].origin == ReassignedFrom(h)
  }

  lemma {:induction false} SourceIsSpent(cfg: Config, s: State, h: HailId, j: HailId)
    requires Inv(cfg, s) && j in MadeFrom(s, h)
    ensures h < |s.hails| && DriverUnavailable(s.hails[h]) && Spent(s, h)
    ensures MadeFrom(s, h) == {j}
  {
    assert OriginFits(s, j);
    forall i | i in MadeFrom(s, h)
      ensures i == j
    {
    }
  }

  /**
   After any run a hail is the source of one reassigned hail at most, and a
   source was refused or left unanswered before any driver accepted it: a ride
   that timed out on board is never a source.
   */
  lemma {:induction false} SourcesAreUsedOnce(cfg: Config, s: State, actions: seq<Action>, h: HailId)
    requires Initial(s) && h < |Run(cfg, s, actions).hails|
    ensures
      var s' := Run(cfg, s, actions);
      && |MadeFrom(s', h)| <= 1
      && (MadeFrom(s', h) != {} ==> Spent(s', h))
      && (MadeFrom(s', h) != {} || !Spent(s', h) ==>
            && Reassignable(s'.hails[h].status)
            && !Visited(s'.hails[h], AcceptedByTaxi) && !Visited(s'.hails[h], CustomerOnBoard))
  {
    ReachableInv(cfg, s, actions);
    var s' := Run(cfg, s, actions);
    if j :| j in MadeFrom(s', h) {
      SourceIsSpent(cfg, s', h, j);
      NeverAccepted(s'.hails[h]);
    } else if !Spent(s', h) {
      forall k | 0 <= k < |s'.jobs| && s'.jobs[k].hail == h && (s'.jobs[k].Reassign? || s'.jobs[k].Place?)
        ensures DriverUnavailable(s'.hails[h])
      {
        assert JobFits(s', s'.jobs[k]);
      }
      NeverAccepted(s'.hails[h]);
    }
  }

  lemma {:induction false} NeverAccepted(row: HailRow)
    requires Faithful(row) && DriverUnavailable(row)
    ensures !Visited(row, AcceptedByTaxi) && !Visited(row, CustomerOnBoard)
  {
    var n := |row.log|;
    forall k | 0 <= k < n
      ensures row.log[k].to != AcceptedByTaxi && row.log[k].to != CustomerOnBoard
    {
      if k < n - 2 {
        LogClimbs(row, k, n - 2);
      }
    }
  }

  // ------------------------------------------------- who made each move

  /** The action is a request of this user, who held the role that the entry needed. */
  ghost predicate MadeBy(a: Action, h: HailId, e: Entry) {
    match a
    case Create(r) =>
      && e.from == None && e.user == Some(r.moteur.id)
      && (Moteur in r.moteur.roles || Admin in r.moteur.roles)
    case PutHail(h', user, r) =>
      && h' == h && e.from.Some? && e.user == Some(user.id) && r.status == Some(e.to) && r.event == e.event
      && RequiredRole(e.from.value, e.to).Some?
      && (RequiredRole(e.from.value, e.to).value in user.roles || Admin in user.roles)
    case _ => false
  }

  /** The hail and its history before a step, as a row of the state after it. */
  ghost predicate AddsAtMost(s: State, s': State, h: HailId) {
    && h < |s'.hails|
    && (h < |s.hails| ==> s.hails[h].log <= s'.hails[h].log && |s'.hails[h].log| <= |s.hails[h].log| + 1)
    && (h >= |s.hails| ==> h == |s.hails| && |s'.hails[h].log| == 1)
  }

  /** A job writes no entry in the name of a user. */
  lemma {:induction false} JobsNameNoUser(cfg: Config, s: State, job: Job, around: Surroundings, h: HailId)
    requires Inv(cfg, s) && job.hail < |s.hails| && (job.Place? ==> job.choice in s.taxis)
    requires h < |JobStep(cfg, s, job, around).hails|
    ensures
      var s' := JobStep(cfg, s, job, around);
      && AddsAtMost(s, s', h)
      && (h >= |s.hails| || s'.hails[h].log != s.hails[h].log ==> s'.hails[h].log[|s'.hails[h].log| - 1].user == None)
  {
    if job.Send? {
      SendEffectAdvances(cfg, s.hails[job.hail], around);
    }
  }

  lemma {:induction false} PutEntryIsAllowed(cfg: Config, s: State, h': HailId, user: User, r: HailRequest, h: HailId)
    requires Inv(cfg, s) && h < |s.hails|
    ensures
      var s' := PutHailStep(s, h', user, r);
      && AddsAtMost(s, s', h)
      && (s'.hails[h].log != s.hails[h].log ==>
            MadeBy(PutHail(h', user, r), h, s'.hails[h].log[|s'.hails[h].log| - 1]))
  {
    var result := PutHailResult(s, h', user, r);
    if result.Ok? && result.value.Some? {
      TransitionStep(s.hails[h'], s.taxis[s.hails[h'].taxi].status, r.status.value, Some(user), r.phone, r.event);
    }
  }

  /** The entry at k was already there, in the same place of the same hail. */
  ghost predicate WasThere(s: State, h: HailId, k: nat, e: Entry) {
    h < |s.hails| && k < |s.hails[h].log| && s.hails[h].log[k] == e
  }

  lemma {:induction false} EntryIsOldOrLast(s: State, s': State, h: HailId, k: nat)
    requires AddsAtMost(s, s', h) && k < |s'.hails[h].log|
    ensures
      || WasThere(s, h, k, s'.hails[h].log[k])
      || (k == |s'.hails[h].log| - 1 && (h >= |s.hails| || s'.hails[h].log != s.hails[h].log))
  {
  }

  lemma {:induction false} CreateEntryIsAllowed(cfg: Config, s: State, r: CreateRequest, h: HailId)
    requires Inv(cfg, s) && h < |CreateStep(cfg, s, r).hails|
    ensures
      var s' := CreateStep(cfg, s, r);
      AddsAtMost(s, s', h) && (h >= |s.hails| ==> MadeBy(Create(r), h, s'.hails[h].log[0]))
      && (h < |s.hails| ==> s'.hails[h] == s.hails[h])
  {
  }

  lemma {:induction false} JobEntryWasThere(cfg: Config, s: State, job: Job, around: Surroundings, h: HailId, k: nat)
    requires Inv(cfg, s) && job.hail < |s.hails| && (job.Place? ==> job.choice in s.taxis)
    requires h < |JobStep(cfg, s, job, around).hails|
    requires k < |JobStep(cfg, s, job, around).hails[h].log|
    requires JobStep(cfg, s, job, around).hails[h].log[k].user.Some?
    ensures WasThere(s, h, k, JobStep(cfg, s, job, around).hails[h].log[k])
  {
    JobsNameNoUser(cfg, s, job, around, h);
    EntryIsOldOrLast(s, JobStep(cfg, s, job, around), h, k);
  }

  lemma {:induction false} RunJobEntryWasThere(cfg: Config, s: State, i: nat, around: Surroundings, h: HailId, k: nat)
    requires Inv(cfg, s) && i < |s.jobs| && !Waits(s, s.jobs[i])
    requires h < |Step(cfg, s, RunJob(i, around)).hails| && k < |Step(cfg, s, RunJob(i, around)).hails[h].log|
    requires Step(cfg, s, RunJob(i, around)).hails[h].log[k].user.Some?
    ensures WasThere(s, h, k, Step(cfg, s, RunJob(i, around)).hails[h].log[k])
  {
    DequeueKeepsInv(cfg, s, i);
    JobEntryWasThere(cfg, s.(jobs := Without(s.jobs, i)), s.jobs[i], around, h, k);
  }

  lemma {:induction false} PutEntryIsNew(cfg: Config, s: State, h': HailId, user: User, r: HailRequest, h: HailId,
                                         k: nat)
    requires Inv(cfg, s) && h < |s.hails| && k < |PutHailStep(s, h', user, r).hails[h].log|
    ensures
      var e := PutHailStep(s, h', user, r).hails[h].log[k];
      WasThere(s, h, k, e) || MadeBy(PutHail(h', user, r), h, e)
  {
    PutEntryIsAllowed(cfg, s, h', user, r, h);
    EntryIsOldOrLast(s, PutHailStep(s, h', user, r), h, k);
  }

  lemma {:induction false} UserEntryIsNew(cfg: Config, s: State, a: Action, h: HailId, k: nat)
    requires Inv(cfg, s)
    requires h < |Step(cfg, s, a).hails| && k < |Step(cfg, s, a).hails[h].log|
    requires Step(cfg, s, a).hails[h].log[k].user.Some?
    ensures
      var e := Step(cfg, s, a).hails[h].log[k];
      WasThere(s, h, k, e) || MadeBy(a, h, e)
  {
    var s' := Step(cfg, s, a);
    match a
    case Create(r) => CreateEntryIsAllowed(cfg, s, r, h);
    case PutHail(h', user, r) => PutEntryIsNew(cfg, s, h', user, r, h, k);
    case RunJob(i, around) =>
      if i < |s.jobs| && !Waits(s, s.jobs[i]) {
        RunJobEntryWasThere(cfg, s, i, around, h, k);
      }
    case _ =>
  }

  lemma {:induction false} RunSplits(cfg: Config, s: State, first: seq<Action>, second: seq<Action>)
    requires Keys(s)
    ensures Run(cfg, s, first + second) == Run(cfg, Run(cfg, s, first), second)
    decreases |first|
  {
    if first == [] {
      assert first + second == second;
    } else {
      assert (first + second)[1..] == first[1..] + second;
      RunSplits(cfg, Step(cfg, s, first[0]), first[1..], second);
    }
  }

  /**
   After any run, every entry that names a user was written by a request of
   that user, made while the user held the role the move needs, or admin.
   */
  lemma {:induction false} EveryUserEntryWasAllowed(cfg: Config, s: State, actions: seq<Action>, h: HailId, k: nat)
    requires Initial(s)
    requires h < |Run(cfg, s, actions).hails| && k < |Run(cfg, s, actions).hails[h].log|
    requires Run(cfg, s, actions).hails[h].log[k].user.Some?
    ensures exists i | 0 <= i < |actions| :: MadeBy(actions[i], h, Run(cfg, s, actions).hails[h].log[k])
    decreases |actions|
  {
    var n := |actions| - 1;
    if n >= 0 {
      assert actions == actions[..n] + [actions[n]];
      RunSplits(cfg, s, actions[..n], [actions[n]]);
      ReachableInv(cfg, s, actions[..n]);
      var before := Run(cfg, s, actions[..n]);
      assert Run(cfg, before, [actions[n]]) == Step(cfg, before, actions[n]);
      UserEntryIsNew(cfg, before, actions[n], h, k);
      if !MadeBy(actions[n], h, Run(cfg, s, actions).hails[h].log[k]) {
        EveryUserEntryWasAllowed(cfg, s, actions[..n], h, k);
        var i :| 0 <= i < n && MadeBy(actions[..n][i], h, before.hails[h].log[k]);
        assert MadeBy(actions[i], h, before.hails[h].log[k]);
      }
    }
  }
}
