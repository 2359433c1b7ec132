/**
 What every request and every job keeps: faithful logs, at most one active hail
 per taxi, the agreement of hails and taxis, and what pending jobs and
 reassigned hails say about their hails.
 */
module DispatchInvariant {
  import opened Wrappers
  import opened HailTypes
  import opened HailMachine
  import opened Dispatch

  // ------------------------------------------------------------- the invariant

  ghost predicate RowsFaithful(s: State) {
    forall i | 0 <= i < |s.hails| :: Faithful(s.hails[i])
  }

  /** A taxi has at most one hail that is not over. */
  ghost predicate SingleActive(s: State) {
    forall i, j | 0 <= i < j < |s.hails| ::
      s.hails[i].taxi == s.hails[j].taxi ==> Terminal(s.hails[i].status) || Terminal(s.hails[j].status)
  }

  /** A hail that is not over fixes the status of its taxi. */
  ghost predicate Coupled(s: State)
    requires Keys(s)
  {
    forall i | 0 <= i < |s.hails| ::
      !Terminal(s.hails[i].status) ==> s.taxis[s.hails[i].taxi].status == Engaged(s.hails[i].status)
  }

  /** A taxi that is answering or on its way has a hail that is not over. */
  ghost predicate NoStrandedTaxi(s: State) {
    forall t | t in s.taxis :: Updatable(s.taxis[t].status) || TaxiEngaged(s, t)
  }

  /** The hail has been refused or left unanswered by the driver it was sent to. */
  ghost predicate DriverUnavailable(row: HailRow) {
    && |row.log| >= 2
    && row.log[|row.log| - 2].to == ReceivedByTaxi
    && Reassignable(row.status)
  }

  ghost predicate JobFits(s: State, job: Job) {
    && job.hail < |s.hails|
    && match job
       case Send(h) => s.hails[h].status.Received? || s.hails[h].status.DeclinedByCustomer?
       case Timer(h, initial, target, taxi) => TimeoutFor(initial) == Some(TimeoutSpec(target, taxi))
       case Reassign(h) => DriverUnavailable(s.hails[h])
       case Place(h, _, _) => DriverUnavailable(s.hails[h])
  }

  /** Jobs carry the data of the timeout table, and a hail has one send and one reassignment at most. */
  ghost predicate JobsFit(s: State) {
    && (forall k | 0 <= k < |s.jobs| :: JobFits(s, s.jobs[k]))
    && (forall j, k | 0 <= j < k < |s.jobs| :: s.jobs[j] == s.jobs[k] ==> s.jobs[j].Timer?)
  }

  /** No reassignment of this hail is pending, before its reading or after it. */
  ghost predicate Spent(s: State, h: HailId) {
    Reassign(h) !in s.jobs && forall k | 0 <= k < |s.jobs| :: s.jobs[k].Place? ==> s.jobs[k].hail != h
  }

  /** The hails that the customer asked for in a session after the hail given. */
  function RequestedAfter(hails: seq<HailRow>, session: Session, h: HailId): nat {
    if hails == [] then 0
    else
      var n := |hails| - 1;
      RequestedAfter(hails[..n], session, h)
      + (if h < n && hails[n].session == session && hails[n].origin.Requested? then 1 else 0)
  }

  /** Of the hails of a session, only those that the customer asked for after the source may use the taxi. */
  ghost predicate UsedSince(s: State, n: nat, session: Session, source: HailId, t: TaxiId)
    requires n <= |s.hails|
  {
    forall i | 0 <= i < n && s.hails[i].session == session ::
      s.hails[i].taxi == t ==> s.hails[i].origin.Requested? && source < i
  }

  /** What holds of a choice from its reading to its insert, whatever is committed meanwhile. */
  ghost predicate PlacementFits(cfg: Config, s: State, job: Job)
    requires job.Place? && job.hail < |s.hails|
  {
    var h, session := job.hail, s.hails[job.hail].session;
    && Reassign(h) !in s.jobs
    && (forall j | 0 <= j < |s.hails| :: s.hails[j].origin != ReassignedFrom(h))
    && UsedSince(s, |s.hails|, session, h, job.choice)
    && SessionSize(s.hails, session) < cfg.candidateLimit + RequestedAfter(s.hails, session, h)
  }

  /** Choices fit, and a session has one at most. */
  ghost predicate PlacementsFit(cfg: Config, s: State)
    requires Keys(s)
  {
    && (forall k | 0 <= k < |s.jobs| && s.jobs[k].Place? :: PlacementFits(cfg, s, s.jobs[k]))
    && (forall j, k | 0 <= j < k < |s.jobs| && s.jobs[j].Place? && s.jobs[k].Place? ::
          s.hails[s.jobs[j].hail].session != s.hails[s.jobs[k].hail].session)
  }

  /**
   Where a reassigned hail comes from, and that no earlier hail of its session
   used its taxi, unless the customer asked for it after the source.
   */
  ghost predicate OriginFits(s: State, j: HailId)
    requires j < |s.hails|
  {
    s.hails[j].origin.ReassignedFrom? ==>
      var source := s.hails[j].origin.source;
      && source < j
      && s.hails[source].session == s.hails[j].session
      && DriverUnavailable(s.hails[source])
      && Spent(s, source)
      && UsedSince(s, j, s.hails[j].session, source, s.hails[j].taxi)
  }

  ghost predicate OriginsFit(s: State) {
    && (forall j | 0 <= j < |s.hails| :: OriginFits(s, j))
    && (forall i, j | 0 <= i < j < |s.hails| ::
          s.hails[i].origin.ReassignedFrom? ==> s.hails[i].origin != s.hails[j].origin)
  }

  /**
   When it was inserted, a reassigned hail left its session within the limit,
   but for what the customer had asked for after the source.
   */
  ghost predicate WithinLimit(cfg: Config, s: State) {
    forall j | 0 <= j < |s.hails| && s.hails[j].origin.ReassignedFrom? :: SizeFits(cfg, s.hails, j)
  }

  ghost predicate SizeFits(cfg: Config, hails: seq<HailRow>, j: HailId)
    requires j < |hails| && hails[j].origin.ReassignedFrom?
  {
    SessionSize(hails[..j + 1], hails[j].session)
    <= cfg.candidateLimit + RequestedAfter(hails[..j + 1], hails[j].session, hails[j].origin.source)
  }

  ghost predicate Inv(cfg: Config, s: State) {
    && Keys(s)
    && RowsFaithful(s)
    && SingleActive(s)
    && Coupled(s)
    && NoStrandedTaxi(s)
    && JobsFit(s)
    && PlacementsFit(cfg, s)
    && OriginsFit(s)
    && WithinLimit(cfg, s)
  }

  // ------------------------------------------------------------- the writes keep it

  /** The row a hail has after one lawful entry more. */
  ghost predicate Advances(row: HailRow, row': HailRow) {
    && row' == row.(status := row'.status, phone := row'.phone, log := row'.log)
    && Faithful(row')
    && |row'.log| == |row.log| + 1
    && row'.log[..|row.log|] == row.log
    && !Terminal(row.status)
  }

  lemma {:induction false} AdvanceFacts(row: HailRow, row': HailRow)
    requires Faithful(row) && Advances(row, row')
    ensures Edge(row.status, row'.status)
    ensures row'.log[|row'.log| - 1].from == Some(row.status)
    ensures DriverUnavailable(row') <==> row.status.ReceivedByTaxi? && Reassignable(row'.status)
  {
    assert row'.log[|row.log| - 1] == row'.log[..|row.log|][|row.log| - 1];
    assert Linked(row'.log, |row.log|);
  }

  /** A session's size does not depend on what its hails have become. */
  lemma {:induction false} SessionSizeOfCommit(hails: seq<HailRow>, h: nat, row: HailRow, session: Session)
    requires h < |hails| && row.session == hails[h].session
    ensures SessionSize(hails[h := row], session) == SessionSize(hails, session)
  {
    var n := |hails| - 1;
    if h < n {
      SessionSizeOfCommit(hails[..n], h, row, session);
      assert hails[h := row][..n] == hails[..n][h := row];
    } else {
      assert hails[h := row][..n] == hails[..n];
    }
  }

  lemma {:induction false} RequestedAfterOfCommit(hails: seq<HailRow>, i: nat, row: HailRow, session: Session,
                                                  h: HailId)
    requires i < |hails| && row.session == hails[i].session && row.origin == hails[i].origin
    ensures RequestedAfter(hails[i := row], session, h) == RequestedAfter(hails, session, h)
  {
    var n := |hails| - 1;
    if i < n {
      RequestedAfterOfCommit(hails[..n], i, row, session, h);
      assert hails[i := row][..n] == hails[..n][i := row];
    } else {
      assert hails[i := row][..n] == hails[..n];
    }
  }

  /** Moving an active hail one lawful step keeps hails and taxis in agreement. */
  lemma {:induction false} CommitKeepsAgreement(s: State, h: HailId, row: HailRow, taxi: TaxiStatus)
    requires Keys(s) && RowsFaithful(s) && SingleActive(s) && Coupled(s) && NoStrandedTaxi(s) && Active(s, h)
    requires Advances(s.hails[h], row) && Fits(row.status, taxi)
    ensures
      var s' := Commit(s, h, row, taxi);
      Keys(s') && RowsFaithful(s') && SingleActive(s') && Coupled(s') && NoStrandedTaxi(s')
  {
    var s' := Commit(s, h, row, taxi);
    forall t | t in s'.taxis && !Updatable(s'.taxis[t].status)
      ensures TaxiEngaged(s', t)
    {
      if t == s.hails[h].taxi {
        assert Active(s', h);
      } else {
        var i :| 0 <= i < |s.hails| && s.hails[i].taxi == t && Active(s, i);
        assert Active(s', i);
      }
    }
  }

  lemma {:induction false} CommitKeepsJobs(s: State, h: HailId, row: HailRow, taxi: TaxiStatus)
    requires Keys(s) && JobsFit(s) && Active(s, h)
    requires Send(h) !in s.jobs || row.status.DeclinedByCustomer?
    ensures JobsFit(Commit(s, h, row, taxi))
  {
  }

  lemma {:induction false} CommitKeepsOrigins(cfg: Config, s: State, h: HailId, row: HailRow, taxi: TaxiStatus)
    requires Keys(s) && OriginsFit(s) && WithinLimit(cfg, s) && Active(s, h)
    requires Advances(s.hails[h], row)
    ensures OriginsFit(Commit(s, h, row, taxi)) && WithinLimit(cfg, Commit(s, h, row, taxi))
  {
    var s' := Commit(s, h, row, taxi);
    forall j | 0 <= j < |s'.hails|
      ensures OriginFits(s', j)
    {
      assert OriginFits(s, j);
    }
    forall j | 0 <= j < |s'.hails| && s'.hails[j].origin.ReassignedFrom?
      ensures SizeFits(cfg, s'.hails, j)
    {
      assert SizeFits(cfg, s.hails, j);
      if h <= j {
        assert s'.hails[..j + 1] == s.hails[..j + 1][h := row];
        SessionSizeOfCommit(s.hails[..j + 1], h, row, s.hails[j].session);
        RequestedAfterOfCommit(s.hails[..j + 1], h, row, s.hails[j].session, s.hails[j].origin.source);
      } else {
        assert s'.hails[..j + 1] == s.hails[..j + 1];
      }
    }
  }

  lemma {:induction false} CommitKeepsPlacements(cfg: Config, s: State, h: HailId, row: HailRow, taxi: TaxiStatus)
    requires Keys(s) && PlacementsFit(cfg, s) && Active(s, h) && Advances(s.hails[h], row)
    ensures Keys(Commit(s, h, row, taxi)) && PlacementsFit(cfg, Commit(s, h, row, taxi))
  {
    var s' := Commit(s, h, row, taxi);
    forall k | 0 <= k < |s'.jobs| && s'.jobs[k].Place?
      ensures PlacementFits(cfg, s', s'.jobs[k])
    {
      var source := s.jobs[k].hail;
      assert PlacementFits(cfg, s, s.jobs[k]);
      SessionSizeOfCommit(s.hails, h, row, s.hails[source].session);
      RequestedAfterOfCommit(s.hails, h, row, s.hails[source].session, source);
    }
  }

  /** Moving an active hail one lawful step, with a taxi status that fits, keeps every part. */
  lemma {:induction false} CommitKeepsInv(cfg: Config, s: State, h: HailId, row: HailRow, taxi: TaxiStatus)
    requires Inv(cfg, s) && Active(s, h)
    requires Advances(s.hails[h], row) && Fits(row.status, taxi)
    requires Send(h) !in s.jobs || row.status.DeclinedByCustomer?
    ensures Inv(cfg, Commit(s, h, row, taxi))
  {
    CommitKeepsAgreement(s, h, row, taxi);
    CommitKeepsJobs(s, h, row, taxi);
    CommitKeepsPlacements(cfg, s, h, row, taxi);
    CommitKeepsOrigins(cfg, s, h, row, taxi);
  }

  lemma {:induction false} InsertStrandsNoTaxi(s: State, row: HailRow)
    requires NoStrandedTaxi(s) && row.taxi in s.taxis && !Terminal(row.status)
    ensures NoStrandedTaxi(Insert(s, row))
  {
    var s' := Insert(s, row);
    forall t | t in s'.taxis && !Updatable(s'.taxis[t].status)
      ensures TaxiEngaged(s', t)
    {
      if t == row.taxi {
        assert Active(s', |s.hails|);
      } else {
        var i :| 0 <= i < |s.hails| && s.hails[i].taxi == t && Active(s, i);
        assert s'.hails[i].taxi == t && Active(s', i);
      }
    }
  }

  /** A received hail on a taxi that no active hail holds keeps hails and taxis in agreement. */
  lemma {:induction false} InsertKeepsAgreement(s: State, row: HailRow)
    requires Keys(s) && RowsFaithful(s) && SingleActive(s) && Coupled(s) && NoStrandedTaxi(s)
    requires row.taxi in s.taxis && !TaxiEngaged(s, row.taxi)
    requires Faithful(row) && row.status == Received
    ensures
      var s' := Insert(s, row);
      Keys(s') && RowsFaithful(s') && SingleActive(s') && Coupled(s') && NoStrandedTaxi(s')
  {
    InsertStrandsNoTaxi(s, row);
    forall i | 0 <= i < |s.hails| && s.hails[i].taxi == row.taxi
      ensures Terminal(s.hails[i].status)
    {
      assert !Active(s, i);
    }
  }

  lemma {:induction false} InsertKeepsJobs(s: State, row: HailRow)
    requires Keys(s) && JobsFit(s) && row.taxi in s.taxis && row.status == Received
    ensures JobsFit(Insert(s, row))
  {
  }

  lemma {:induction false} InsertKeepsOrigins(cfg: Config, s: State, row: HailRow)
    requires Keys(s) && OriginsFit(s) && WithinLimit(cfg, s) && row.taxi in s.taxis
    requires OriginFits(s.(hails := s.hails + [row]), |s.hails|)
    requires row.origin.ReassignedFrom? ==> forall i | 0 <= i < |s.hails| :: s.hails[i].origin != row.origin
    requires row.origin.ReassignedFrom? ==> RoomFor(cfg, s.hails, row)
    ensures OriginsFit(Insert(s, row)) && WithinLimit(cfg, Insert(s, row))
  {
    var s' := Insert(s, row);
    var n := |s.hails|;
    forall j | 0 <= j < |s'.hails|
      ensures OriginFits(s', j)
    {
      if j < n {
        assert OriginFits(s, j);
      }
    }
    forall j | 0 <= j < |s'.hails| && s'.hails[j].origin.ReassignedFrom?
      ensures SizeFits(cfg, s'.hails, j)
    {
      if j < n {
        assert SizeFits(cfg, s.hails, j);
        assert s'.hails[..j + 1] == s.hails[..j + 1];
      } else {
        assert s'.hails[..j + 1] == s'.hails;
        assert s'.hails[..n] == s.hails;
      }
    }
  }

  /** The session of a reassigned hail still has a place, but for what the customer asked for after the source. */
  ghost predicate RoomFor(cfg: Config, hails: seq<HailRow>, row: HailRow)
    requires row.origin.ReassignedFrom?
  {
    SessionSize(hails, row.session) < cfg.candidateLimit + RequestedAfter(hails, row.session, row.origin.source)
  }

  /** No choice is pending that a new hail could upset. */
  ghost predicate Undisputed(s: State, row: HailRow) {
    row.origin.ReassignedFrom? ==>
      && !Placing(s, row.session)
      && forall k | 0 <= k < |s.jobs| :: s.jobs[k].Place? ==> s.jobs[k].hail != row.origin.source
  }

  lemma {:induction false} InsertKeepsPlacements(cfg: Config, s: State, row: HailRow)
    requires Keys(s) && PlacementsFit(cfg, s) && row.taxi in s.taxis && Undisputed(s, row)
    ensures Keys(Insert(s, row)) && PlacementsFit(cfg, Insert(s, row))
  {
    var s' := Insert(s, row);
    var n := |s.hails|;
    assert s'.hails[..n] == s.hails;
    forall k | 0 <= k < |s'.jobs| && s'.jobs[k].Place?
      ensures PlacementFits(cfg, s', s'.jobs[k])
    {
      assert PlacementFits(cfg, s, s.jobs[k]);
    }
  }

  /** A new hail on a free taxi that no active hail holds keeps every part. */
  lemma {:induction false} InsertKeepsInv(cfg: Config, s: State, row: HailRow)
    requires Inv(cfg, s)
    requires row.taxi in s.taxis && !TaxiEngaged(s, row.taxi)
    requires Faithful(row) && row.status == Received
    requires OriginFits(s.(hails := s.hails + [row]), |s.hails|)
    requires row.origin.ReassignedFrom? ==> forall i | 0 <= i < |s.hails| :: s.hails[i].origin != row.origin
    requires row.origin.ReassignedFrom? ==> RoomFor(cfg, s.hails, row)
    requires Undisputed(s, row)
    ensures Inv(cfg, Insert(s, row))
  {
    InsertKeepsAgreement(s, row);
    InsertKeepsJobs(s, row);
    InsertKeepsPlacements(cfg, s, row);
    InsertKeepsOrigins(cfg, s, row);
  }

  lemma {:induction false} WithoutIsSubsequence(jobs: seq<Job>, k: nat)
    requires k < |jobs|
    ensures |Without(jobs, k)| == |jobs| - 1
    ensures forall i | 0 <= i < |jobs| - 1 :: Without(jobs, k)[i] == jobs[if i < k then i else i + 1]
    ensures forall job :: job in Without(jobs, k) ==> job in jobs
    ensures forall job :: job in jobs && job != jobs[k] ==> job in Without(jobs, k)
  {
  }

  /** Taking a job off the queue keeps every part, and the job leaves no copy unless it is a timer. */
  lemma {:induction false} DequeueKeepsInv(cfg: Config, s: State, k: nat)
    requires Inv(cfg, s) && k < |s.jobs|
    ensures Inv(cfg, s.(jobs := Without(s.jobs, k)))
    ensures !s.jobs[k].Timer? ==> s.jobs[k] !in Without(s.jobs, k)
  {
    var s' := s.(jobs := Without(s.jobs, k));
    WithoutIsSubsequence(s.jobs, k);
    forall i | 0 <= i < |s'.jobs|
      ensures JobFits(s', s'.jobs[i])
    {
      assert JobFits(s, s.jobs[if i < k then i else i + 1]);
    }
    OtherJobsKeepAgreement(cfg, s, s'.jobs);
    DequeueKeepsOrigins(s, k);
    DequeueKeepsPlacements(cfg, s, k);
  }

  lemma {:induction false} DequeueKeepsOrigins(s: State, k: nat)
    requires OriginsFit(s) && k < |s.jobs|
    ensures OriginsFit(s.(jobs := Without(s.jobs, k)))
  {
    var s' := s.(jobs := Without(s.jobs, k));
    WithoutIsSubsequence(s.jobs, k);
    forall j | 0 <= j < |s'.hails|
      ensures OriginFits(s', j)
    {
      assert OriginFits(s, j);
    }
  }

  lemma {:induction false} DequeueKeepsPlacements(cfg: Config, s: State, k: nat)
    requires Keys(s) && PlacementsFit(cfg, s) && k < |s.jobs|
    ensures Keys(s.(jobs := Without(s.jobs, k))) && PlacementsFit(cfg, s.(jobs := Without(s.jobs, k)))
    ensures s.jobs[k].Place? ==>
              !Placing(s.(jobs := Without(s.jobs, k)), s.hails[s.jobs[k].hail].session)
  {
    var s' := s.(jobs := Without(s.jobs, k));
    WithoutIsSubsequence(s.jobs, k);
    forall i | 0 <= i < |s'.jobs| && s'.jobs[i].Place?
      ensures PlacementFits(cfg, s', s'.jobs[i])
    {
      assert PlacementFits(cfg, s, s.jobs[if i < k then i else i + 1]);
    }
  }

  lemma {:induction false} EnqueueKeepsJobs(s: State, jobs: seq<Job>)
    requires JobsFit(s) && |jobs| <= 1
    requires jobs != [] ==> JobFits(s, jobs[0]) && (jobs[0].Timer? || jobs[0] !in s.jobs)
    ensures JobsFit(Enqueue(s, jobs))
  {
  }

  /** The parts that do not speak of jobs depend on hails and taxis only. */
  lemma {:induction false} OtherJobsKeepAgreement(cfg: Config, s: State, jobs: seq<Job>)
    requires Keys(s) && RowsFaithful(s) && SingleActive(s) && Coupled(s) && NoStrandedTaxi(s) && WithinLimit(cfg, s)
    requires forall k | 0 <= k < |jobs| :: jobs[k].hail < |s.hails| && (jobs[k].Place? ==> jobs[k].choice in s.taxis)
    ensures
      var s' := s.(jobs := jobs);
      && Keys(s') && RowsFaithful(s') && SingleActive(s') && Coupled(s') && NoStrandedTaxi(s') && WithinLimit(cfg, s')
  {
  }

  lemma {:induction false} EnqueueKeepsPlacements(cfg: Config, s: State, job: Job)
    requires Keys(s) && PlacementsFit(cfg, s) && job.hail < |s.hails|
    requires job.Reassign? ==> Spent(s, job.hail)
    requires job.Place? ==>
               job.choice in s.taxis && PlacementFits(cfg, s, job) && !Placing(s, s.hails[job.hail].session)
    ensures Keys(Enqueue(s, [job])) && PlacementsFit(cfg, Enqueue(s, [job]))
  {
    var s' := Enqueue(s, [job]);
    forall k | 0 <= k < |s'.jobs| && s'.jobs[k].Place?
      ensures PlacementFits(cfg, s', s'.jobs[k])
    {
      if k < |s.jobs| {
        assert PlacementFits(cfg, s, s.jobs[k]);
      }
    }
  }

  lemma {:induction false} EnqueueKeepsOrigins(s: State, job: Job)
    requires OriginsFit(s)
    requires job.Reassign? || job.Place? ==>
               forall j | 0 <= j < |s.hails| :: s.hails[j].origin != ReassignedFrom(job.hail)
    ensures OriginsFit(Enqueue(s, [job]))
  {
    forall j | 0 <= j < |s.hails|
      ensures OriginFits(Enqueue(s, [job]), j)
    {
      assert OriginFits(s, j);
    }
  }

  lemma {:induction false} EnqueueKeepsInv(cfg: Config, s: State, job: Job)
    requires Inv(cfg, s) && JobFits(s, job) && (job.Timer? || job !in s.jobs)
    requires job.Reassign? || job.Place? ==>
               && Spent(s, job.hail)
               && forall j | 0 <= j < |s.hails| :: s.hails[j].origin != ReassignedFrom(job.hail)
    requires job.Place? ==>
               job.choice in s.taxis && PlacementFits(cfg, s, job) && !Placing(s, s.hails[job.hail].session)
    ensures Inv(cfg, Enqueue(s, [job]))
  {
    EnqueueKeepsJobs(s, [job]);
    EnqueueKeepsPlacements(cfg, s, job);
    EnqueueKeepsOrigins(s, job);
    OtherJobsKeepAgreement(cfg, s, s.jobs + [job]);
  }

  /** An active hail has not been the source of anything yet. */
  lemma {:induction false} ActiveIsNoSource(cfg: Config, s: State, h: HailId)
    requires Inv(cfg, s) && Active(s, h)
    ensures Spent(s, h)
    ensures forall j | 0 <= j < |s.hails| :: s.hails[j].origin != ReassignedFrom(h)
  {
    forall k | 0 <= k < |s.jobs|
      ensures s.jobs[k] != Reassign(h) && (s.jobs[k].Place? ==> s.jobs[k].hail != h)
    {
      assert JobFits(s, s.jobs[k]);
    }
    forall j | 0 <= j < |s.hails|
      ensures s.hails[j].origin != ReassignedFrom(h)
    {
      assert OriginFits(s, j);
    }
  }

  /** An active hail whose request is still to be sent has just been received. */
  lemma {:induction false} PendingSendIsReceived(s: State, h: HailId)
    requires Keys(s) && JobsFit(s) && Send(h) in s.jobs
    ensures h < |s.hails| && (s.hails[h].status.Received? || s.hails[h].status.DeclinedByCustomer?)
  {
  }

  // ------------------------------------------------------------- the steps keep it

  lemma {:induction false} CreateKeepsInv(cfg: Config, s: State, r: CreateRequest)
    requires Inv(cfg, s)
    ensures Inv(cfg, CreateStep(cfg, s, r))
  {
    if CreateCheck(cfg, s, r).None? {
      InsertKeepsInv(cfg, s, CreateRow(s, r));
    }
  }

  /** A move that is followed by its timer, by a reassignment or by nothing. */
  lemma {:induction false} AdvanceAndFollowKeepsInv(cfg: Config, s: State, h: HailId, row: HailRow, taxi: TaxiStatus,
                                                    jobs: seq<Job>)
    requires Inv(cfg, s) && Active(s, h)
    requires Advances(s.hails[h], row) && Fits(row.status, taxi)
    requires Send(h) !in s.jobs || row.status.DeclinedByCustomer?
    requires jobs == [] || jobs == TimerFor(h, row.status)
             || (jobs == [Reassign(h)] && s.hails[h].status.ReceivedByTaxi? && Reassignable(row.status))
    ensures Inv(cfg, Enqueue(Commit(s, h, row, taxi), jobs))
  {
    ActiveIsNoSource(cfg, s, h);
    CommitKeepsInv(cfg, s, h, row, taxi);
    AdvanceFacts(s.hails[h], row);
    var s' := Commit(s, h, row, taxi);
    if jobs == [] {
      assert Enqueue(s', jobs) == s';
    } else {
      assert Spent(s', h);
      EnqueueKeepsInv(cfg, s', jobs[0]);
      assert jobs == [jobs[0]];
    }
  }

  lemma {:induction false} PutHailKeepsInv(cfg: Config, s: State, h: HailId, user: User, r: HailRequest)
    requires Inv(cfg, s)
    ensures Inv(cfg, PutHailStep(s, h, user, r))
  {
    var result := PutHailResult(s, h, user, r);
    if result.Ok? && result.value.Some? {
      var row, a := s.hails[h], result.value.value;
      TransitionStep(row, s.taxis[row.taxi].status, r.status.value, Some(user), r.phone, r.event);
      if a.changed {
        assert a.row.log[..|row.log|] == row.log;
        if Send(h) in s.jobs {
          PendingSendIsReceived(s, h);
        }
        AdvanceAndFollowKeepsInv(cfg, s, h, a.row, a.taxi, FollowUp(h, a.row.status));
      } else {
        assert s.taxis[row.taxi := s.taxis[row.taxi].(status := a.taxi)] == s.taxis;
        assert s.hails[h := a.row] == s.hails;
        assert Commit(s, h, a.row, a.taxi) == s;
      }
    }
  }

  lemma {:induction false} PutTaxiKeepsInv(cfg: Config, s: State, t: TaxiId, user: User, status: TaxiStatus,
                                           recent: bool)
    requires Inv(cfg, s)
    ensures Inv(cfg, PutTaxiStep(s, t, user, status, recent))
  {
    if PutTaxiCheck(s, t, user, status, recent).None? {
      var s' := PutTaxiStep(s, t, user, status, recent);
      forall i | 0 <= i < |s'.hails| && !Terminal(s'.hails[i].status)
        ensures s'.hails[i].taxi != t
      {
        assert Active(s, i);
      }
      forall x | x in s'.taxis && TaxiEngaged(s, x)
        ensures TaxiEngaged(s', x)
      {
        var i :| 0 <= i < |s.hails| && s.hails[i].taxi == x && Active(s, i);
        assert Active(s', i);
      }
      forall k | 0 <= k < |s'.jobs|
        ensures JobFits(s', s'.jobs[k]) && (s'.jobs[k].Place? ==> PlacementFits(cfg, s', s'.jobs[k]))
      {
        assert JobFits(s, s.jobs[k]) && (s.jobs[k].Place? ==> PlacementFits(cfg, s, s.jobs[k]));
      }
      forall j | 0 <= j < |s'.hails|
        ensures OriginFits(s', j)
      {
        assert OriginFits(s, j);
      }
    }
  }

  /** The operator request moves a received hail one lawful step. */
  lemma {:induction false} SendEffectAdvances(cfg: Config, row: HailRow, around: Surroundings)
    requires Faithful(row)
    ensures
      var e := SendEffectOn(cfg, row, around);
      e.Effect? ==>
        && row.status.Received? && Advances(row, e.row) && SendEdge(Received, e.row.status)
        && (e.fails <==> e.row.status.Failure?)
        && e.row.log[|row.log|].user == None
  {
    var e := SendEffectOn(cfg, row, around);
    if e.Effect? {
      var last := e.row.log[|row.log|];
      ChangedIsFaithful(row, e.row.phone, e.row.status, None, last.reason, "");
      assert e.row == Changed(row.(phone := e.row.phone), e.row.status, None, last.reason, "");
      assert e.row.log[..|row.log|] == row.log;
    }
  }

  lemma {:induction false} SendKeepsInv(cfg: Config, s: State, h: HailId, around: Surroundings)
    requires Inv(cfg, s) && h < |s.hails| && Send(h) !in s.jobs
    ensures Inv(cfg, SendStep(cfg, s, h, around))
  {
    SendEffectAdvances(cfg, s.hails[h], around);
    var e := SendEffectOn(cfg, s.hails[h], around);
    if e.Effect? {
      var taxi := if e.fails then Free else s.taxis[s.hails[h].taxi].status;
      AdvanceAndFollowKeepsInv(cfg, s, h, e.row, taxi, TimerFor(h, e.row.status));
    }
  }

  lemma {:induction false} TimerRowAdvances(row: HailRow, target: HailStatus)
    requires Faithful(row) && TimeoutEdge(row.status, target)
    ensures Advances(row, Changed(row, target, None, TimedOut, ""))
  {
    ChangedIsFaithful(row, row.phone, target, None, TimedOut, "");
    assert row.(phone := row.phone) == row;
    assert Changed(row, target, None, TimedOut, "").log[..|row.log|] == row.log;
  }

  lemma {:induction false} TimerStepKeepsInv(cfg: Config, s: State, h: HailId, initial: HailStatus,
                                             target: HailStatus, taxi: TaxiStatus)
    requires Inv(cfg, s) && h < |s.hails|
    requires TimeoutFor(initial) == Some(TimeoutSpec(target, taxi))
    ensures Inv(cfg, TimerStep(s, h, initial, target, taxi))
  {
    if s.hails[h].status == initial {
      var row := Changed(s.hails[h], target, None, TimedOut, "");
      TimerRowAdvances(s.hails[h], target);
      if Send(h) in s.jobs {
        PendingSendIsReceived(s, h);
      }
      AdvanceAndFollowKeepsInv(cfg, s, h, row, taxi, if initial.ReceivedByTaxi? then [Reassign(h)] else []);
      assert Enqueue(Commit(s, h, row, taxi), []) == Commit(s, h, row, taxi);
    }
  }

  /** A choice fits the reading it was made from. */
  lemma {:induction false} ChoiceFits(cfg: Config, s: State, h: HailId, around: Surroundings)
    requires h < |s.hails| && ReassignResult(cfg, s, h, around.nearby).Ok?
    requires Reassign(h) !in s.jobs && forall j | 0 <= j < |s.hails| :: s.hails[j].origin != ReassignedFrom(h)
    ensures PlacementFits(cfg, s, Place(h, ReassignResult(cfg, s, h, around.nearby).value, around.now))
  {
  }

  /** The reading of a reassignment leaves its choice pending. */
  lemma {:induction false} ReassignKeepsInv(cfg: Config, s: State, h: HailId, around: Surroundings)
    requires Inv(cfg, s) && h < |s.hails|
    requires DriverUnavailable(s.hails[h]) && Spent(s, h) && !Placing(s, s.hails[h].session)
    requires forall j | 0 <= j < |s.hails| :: s.hails[j].origin != ReassignedFrom(h)
    ensures Inv(cfg, ReassignStep(cfg, s, h, around))
  {
    var result := ReassignResult(cfg, s, h, around.nearby);
    if result.Ok? {
      ChoiceFits(cfg, s, h, around);
      EnqueueKeepsInv(cfg, s, Place(h, result.value, around.now));
    }
  }

  /** The insert of a choice keeps every part, whatever was committed since the reading. */
  lemma {:induction false} PlaceKeepsInv(cfg: Config, s: State, h: HailId, t: TaxiId, now: real)
    requires Inv(cfg, s) && h < |s.hails| && t in s.taxis
    requires DriverUnavailable(s.hails[h]) && Spent(s, h) && !Placing(s, s.hails[h].session)
    requires PlacementFits(cfg, s, Place(h, t, now))
    ensures Inv(cfg, PlaceStep(s, h, t, now))
  {
    if !TaxiEngaged(s, t) {
      InsertKeepsInv(cfg, s, ReassignRow(s, h, t, now));
    }
  }

  /** A pending reassignment has not created a hail yet. */
  lemma {:induction false} PendingIsUnused(cfg: Config, s: State, h: HailId)
    requires Inv(cfg, s) && Reassign(h) in s.jobs
    ensures h < |s.hails| && DriverUnavailable(s.hails[h])
    ensures forall j | 0 <= j < |s.hails| :: s.hails[j].origin != ReassignedFrom(h)
    ensures forall k | 0 <= k < |s.jobs| :: s.jobs[k].Place? ==> s.jobs[k].hail != h
  {
    var k :| 0 <= k < |s.jobs| && s.jobs[k] == Reassign(h);
    assert JobFits(s, s.jobs[k]);
    forall j | 0 <= j < |s.hails|
      ensures s.hails[j].origin != ReassignedFrom(h)
    {
      assert OriginFits(s, j);
    }
    forall i | 0 <= i < |s.jobs| && s.jobs[i].Place?
      ensures s.jobs[i].hail != h
    {
      assert PlacementFits(cfg, s, s.jobs[i]);
    }
  }

  /** A reassignment that runs is the only one of its hail, and no other is under way in its session. */
  lemma {:induction false} RunReassignKeepsInv(cfg: Config, s: State, k: nat, around: Surroundings)
    requires Inv(cfg, s) && k < |s.jobs| && s.jobs[k].Reassign? && !Waits(s, s.jobs[k])
    ensures Inv(cfg, Step(cfg, s, RunJob(k, around)))
  {
    var h, s0 := s.jobs[k].hail, s.(jobs := Without(s.jobs, k));
    DequeueKeepsInv(cfg, s, k);
    WithoutIsSubsequence(s.jobs, k);
    PendingIsUnused(cfg, s, h);
    ReassignKeepsInv(cfg, s0, h, around);
  }

  /** A choice that is taken off the queue is its session's only one, and still fits. */
  lemma {:induction false} DequeuedChoiceFits(cfg: Config, s: State, k: nat)
    requires Inv(cfg, s) && k < |s.jobs| && s.jobs[k].Place?
    ensures
      var job, s0 := s.jobs[k], s.(jobs := Without(s.jobs, k));
      && job.hail < |s.hails| && job.choice in s.taxis && DriverUnavailable(s.hails[job.hail])
      && Spent(s0, job.hail) && !Placing(s0, s.hails[job.hail].session)
      && PlacementFits(cfg, s0, job)
  {
  }

  lemma {:induction false} RunPlaceKeepsInv(cfg: Config, s: State, k: nat, around: Surroundings)
    requires Inv(cfg, s) && k < |s.jobs| && s.jobs[k].Place?
    ensures Inv(cfg, Step(cfg, s, RunJob(k, around)))
  {
    var job := s.jobs[k];
    DequeueKeepsInv(cfg, s, k);
    DequeuedChoiceFits(cfg, s, k);
    PlaceKeepsInv(cfg, s.(jobs := Without(s.jobs, k)), job.hail, job.choice, job.now);
  }

  lemma {:induction false} JobKeepsInv(cfg: Config, s: State, k: nat, around: Surroundings)
    requires Inv(cfg, s) && k < |s.jobs| && !Waits(s, s.jobs[k])
    ensures Inv(cfg, Step(cfg, s, RunJob(k, around)))
  {
    var s0 := s.(jobs := Without(s.jobs, k));
    DequeueKeepsInv(cfg, s, k);
    assert JobFits(s, s.jobs[k]);
    match s.jobs[k]
    case Send(h) => SendKeepsInv(cfg, s0, h, around);
    case Timer(h, initial, target, taxi) => TimerStepKeepsInv(cfg, s0, h, initial, target, taxi);
    case Reassign(_) => RunReassignKeepsInv(cfg, s, k, around);
    case Place(_, _, _) => RunPlaceKeepsInv(cfg, s, k, around);
  }

  /** Every request and every job keeps the invariant. */
  lemma {:induction false} StepKeepsInv(cfg: Config, s: State, a: Action)
    requires Inv(cfg, s)
    ensures Inv(cfg, Step(cfg, s, a))
  {
    match a
    case Create(r) => CreateKeepsInv(cfg, s, r);
    case PutHail(h, user, r) => PutHailKeepsInv(cfg, s, h, user, r);
    case PutTaxi(t, user, status, recent) => PutTaxiKeepsInv(cfg, s, t, user, status, recent);
    case Suspend(t, user) => PutTaxiKeepsInv(cfg, s, t, user, Off, true);
    case RunJob(k, around) => if k < |s.jobs| && !Waits(s, s.jobs[k]) { JobKeepsInv(cfg, s, k, around); }
  }

  /** Every run from an empty service keeps the invariant. */
  lemma {:induction false} RunKeepsInv(cfg: Config, s: State, actions: seq<Action>)
    requires Inv(cfg, s)
    ensures Inv(cfg, Run(cfg, s, actions))
    decreases |actions|
  {
    if actions != [] {
      StepKeepsInv(cfg, s, actions[0]);
      RunKeepsInv(cfg, Step(cfg, s, actions[0]), actions[1..]);
    }
  }

  /** In every reachable state the invariant holds. */
  lemma {:induction false} ReachableInv(cfg: Config, s: State, actions: seq<Action>)
    requires Initial(s)
    ensures Inv(cfg, Run(cfg, s, actions))
  {
    RunKeepsInv(cfg, s, actions);
  }
}
