/**
 The operator request as it really runs: it reads the hail and the taxi without a
 lock, waits for the operator, and writes back what it computed from the reading.
 */
module SplitSend {
  import opened Wrappers
  import opened HailTypes
  import opened HailMachine
  import opened Dispatch
  import opened DispatchInvariant
  import opened DispatchHistory
  import opened DispatchOutcomes
  import opened DispatchScenario

  datatype Reading = Reading(row: HailRow, taxi: TaxiStatus)

  /** The job of a request that waits for its operator stays pending until it writes back. */
  datatype SplitState = SplitState(core: State, readings: map<HailId, Reading>)

  datatype SplitAction =
    | Whole(action: Action)
    | Begin(index: nat)
    | Finish(index: nat, around: Surroundings)

  predicate OtherActiveOnTaxi(s: State, h: HailId)
    requires h < |s.hails|
  {
    exists i | 0 <= i < |s.hails| :: i != h && s.hails[i].taxi == s.hails[h].taxi && Active(s, i)
  }

  /** The columns that differ from the reading are written over whatever the row holds now. */
  function WrittenRow(current: HailRow, reading: HailRow, computed: HailRow): HailRow {
    current.(status := computed.status, log := computed.log,
             phone := if computed.phone != reading.phone then computed.phone else current.phone)
  }

  /** The write-back; the unique index may refuse it, and then nothing is written. */
  function WriteBack(cfg: Config, s: State, h: HailId, reading: Reading, around: Surroundings): State
    requires Keys(s) && h < |s.hails|
  {
    match SendEffectOn(cfg, reading.row, around)
    case NoEffect => s
    case Effect(computed, fails) =>
      if !Terminal(computed.status) && OtherActiveOnTaxi(s, h) then s
      else
        var taxi := if fails && !reading.taxi.Free? then Free else s.taxis[s.hails[h].taxi].status;
        Enqueue(Commit(s, h, WrittenRow(s.hails[h], reading.row, computed), taxi), TimerFor(h, computed.status))
  }

  /** A send whose reading has been taken is run by its Finish only. */
  predicate Enabled(s: SplitState, a: SplitAction) {
    match a
    case Whole(action) =>
      action.RunJob? && action.index < |s.core.jobs| && s.core.jobs[action.index].Send?
      ==> s.core.jobs[action.index].hail !in s.readings
    case Begin(k) => k < |s.core.jobs| && s.core.jobs[k].Send? && s.core.jobs[k].hail !in s.readings
    case Finish(k, _) => k < |s.core.jobs| && s.core.jobs[k].Send? && s.core.jobs[k].hail in s.readings
  }

  function SplitStep(cfg: Config, s: SplitState, a: SplitAction): (s': SplitState)
    requires Keys(s.core)
    ensures Keys(s'.core)
  {
    if !Enabled(s, a) then s
    else match a
      case Whole(action) => s.(core := Step(cfg, s.core, action))
      case Begin(k) =>
        var h := s.core.jobs[k].hail;
        var row := s.core.hails[h];
        s.(readings := s.readings[h := Reading(row, s.core.taxis[row.taxi].status)])
      case Finish(k, around) =>
        var h := s.core.jobs[k].hail;
        var core := s.core.(jobs := Without(s.core.jobs, k));
        SplitState(WriteBack(cfg, core, h, s.readings[h], around), s.readings - {h})
  }

  function SplitRun(cfg: Config, s: SplitState, actions: seq<SplitAction>): (s': SplitState)
    requires Keys(s.core)
    ensures Keys(s'.core)
    decreases |actions|
  {
    if actions == [] then s else SplitRun(cfg, SplitStep(cfg, s, actions[0]), actions[1..])
  }

  /** Every run of whole requests and jobs is one of the runs here. */
  lemma {:induction false} WholeRunsRemain(cfg: Config, s: SplitState, actions: seq<Action>)
    requires Keys(s.core) && s.readings == map[]
    ensures
      var wholes := seq(|actions|, i requires 0 <= i < |actions| => Whole(actions[i]));
      SplitRun(cfg, s, wholes) == s.(core := Run(cfg, s.core, actions))
    decreases |actions|
  {
    if actions != [] {
      var wholes := seq(|actions|, i requires 0 <= i < |actions| => Whole(actions[i]));
      var rest := actions[1..];
      assert wholes[1..] == seq(|rest|, i requires 0 <= i < |rest| => Whole(rest[i]));
      WholeRunsRemain(cfg, SplitStep(cfg, s, wholes[0]), rest);
    }
  }

  // -------------------------------------------- what is written

  /** Where a request takes the hail that it read as received; received is nowhere. */
  ghost function SentTo(cfg: Config, row: HailRow, around: Surroundings): HailStatus {
    if around.now - row.addedAt > cfg.sendMaxDelay as real then Failure
    else if row.operateur in cfg.internalOperators then ReceivedByTaxi
    else if Fails(around.reply) then Failure
    else if Succeeds(cfg.column, around.reply) then ReceivedByOperator
    else Received
  }

  /** The number that is there after a write-back: one that is new in the reply, or else the one that is there now. */
  ghost function NumberAfter(cfg: Config, now: string, read: HailRow, to: HailStatus, reply: Reply): string
    requires to == ReceivedByOperator ==> Succeeds(cfg.column, reply)
  {
    if to == ReceivedByOperator && HasNumber(reply.body.json)
       && cfg.column(NumberOf(reply.body.json)).value != read.phone
    then cfg.column(NumberOf(reply.body.json)).value else now
  }

  lemma {:induction false} EffectIsWhereTo(cfg: Config, row: HailRow, around: Surroundings)
    requires row.status == Received
    ensures
      var to := SentTo(cfg, row, around);
      var late, internal := around.now - row.addedAt > cfg.sendMaxDelay as real, row.operateur in cfg.internalOperators;
      match SendEffectOn(cfg, row, around)
      case NoEffect => to == Received
      case Effect(computed, fails) =>
        && to != Received && computed.status == to && (fails <==> to == Failure)
        && computed.log == row.log + [Entry(Some(Received), to, None,
                                            SendReason(late, internal, Fails(around.reply)), "")]
        && computed.phone == NumberAfter(cfg, row.phone, row, to, around.reply)
  {
    RepliesAreOfThreeKinds(cfg.column, around.reply);
    if around.reply.Answered? && around.reply.body.Decoded? {
      NumbersAreRead(cfg.column, around.reply.body.json);
    }
  }

  /**
   Whatever was committed since a request read its hail as received: unless its reply
   raises, or the index refuses to make active again a hail whose taxi has another, it
   writes the status and the log that follow from what it read, over those that are
   there; the number only when the reply has another than was read; and free for the
   taxi only when it fails and the taxi was not free then. All else stays.
   */
  lemma {:induction false} WrittenBackExactly(cfg: Config, s: SplitState, k: nat, around: Surroundings)
    requires Keys(s.core) && Enabled(s, Finish(k, around))
    requires s.readings[s.core.jobs[k].hail].row.status == Received
    ensures
      var h, s' := s.core.jobs[k].hail, SplitStep(cfg, s, Finish(k, around));
      var read, now, taxi := s.readings[h], s.core.hails[h], s.core.hails[h].taxi;
      var to := SentTo(cfg, read.row, around);
      var late := around.now - read.row.addedAt > cfg.sendMaxDelay as real;
      var internal := read.row.operateur in cfg.internalOperators;
      var taken := exists i | 0 <= i < |s.core.hails| ::
                     i != h && s.core.hails[i].taxi == taxi && !Terminal(s.core.hails[i].status);
      && s'.readings == s.readings - {h}
      && s'.core ==
         if to == Received || (to != Failure && taken) then s.core.(jobs := Without(s.core.jobs, k))
         else State(
             s.core.hails[h := now.(status := to,
                                    phone := NumberAfter(cfg, now.phone, read.row, to, around.reply),
                                    log := read.row.log
                                           + [Entry(Some(Received), to, None,
                                                    SendReason(late, internal, Fails(around.reply)), "")])],
             if to == Failure && read.taxi != Free
             then s.core.taxis[taxi := s.core.taxis[taxi].(status := Free)] else s.core.taxis,
             Without(s.core.jobs, k)
             + (if to == ReceivedByOperator then [Timer(h, to, Failure, Free)]
                else if to == ReceivedByTaxi then [Timer(h, to, TimeoutTaxi, Occupied)]
                else []))
  {
    var h, core := s.core.jobs[k].hail, s.core.(jobs := Without(s.core.jobs, k));
    var read, taxi := s.readings[h], s.core.hails[h].taxi;
    EffectIsWhereTo(cfg, read.row, around);
    assert OtherActiveOnTaxi(core, h) <==>
           exists i | 0 <= i < |s.core.hails| ::
             i != h && s.core.hails[i].taxi == taxi && !Terminal(s.core.hails[i].status);
    assert core.taxis[taxi := core.taxis[taxi]] == core.taxis;
    assert core.jobs + [] == core.jobs;
  }

  // -------------------------------------------- one active hail per taxi, always

  /** Timers carry a status from the table: what the index needs to hold on its own. */
  ghost predicate IndexHolds(s: State) {
    && Keys(s)
    && SingleActive(s)
    && (forall k | 0 <= k < |s.jobs| && s.jobs[k].Timer? :: TimeoutFor(s.jobs[k].initial).Some?)
  }

  lemma {:induction false} CommitKeepsSingle(s: State, h: HailId, row: HailRow, taxi: TaxiStatus)
    requires Keys(s) && SingleActive(s) && h < |s.hails| && row.taxi == s.hails[h].taxi
    requires Active(s, h) || Terminal(row.status) || !OtherActiveOnTaxi(s, h)
    ensures Keys(Commit(s, h, row, taxi)) && SingleActive(Commit(s, h, row, taxi))
  {
  }

  lemma {:induction false} StepKeepsIndex(cfg: Config, s: State, a: Action)
    requires IndexHolds(s)
    ensures IndexHolds(Step(cfg, s, a))
  {
    match a
    case Create(r) =>
      if CreateCheck(cfg, s, r).None? {
        InsertKeepsIndex(s, CreateRow(s, r));
      }
    case PutHail(h, user, r) =>
      var result := PutHailResult(s, h, user, r);
      if result.Ok? && result.value.Some? {
        CommitKeepsSingle(s, h, result.value.value.row, result.value.value.taxi);
      }
    case RunJob(k, around) =>
      if k < |s.jobs| && !Waits(s, s.jobs[k]) {
        WithoutIsSubsequence(s.jobs, k);
        JobKeepsIndex(cfg, s.(jobs := Without(s.jobs, k)), s.jobs[k], around);
      }
    case _ =>
  }

  lemma {:induction false} InsertKeepsIndex(s: State, row: HailRow)
    requires IndexHolds(s) && row.taxi in s.taxis && !TaxiEngaged(s, row.taxi)
    ensures IndexHolds(Insert(s, row))
  {
  }

  lemma {:induction false} JobKeepsIndex(cfg: Config, s: State, job: Job, around: Surroundings)
    requires IndexHolds(s) && job.hail < |s.hails| && (job.Place? ==> job.choice in s.taxis)
    requires job.Timer? ==> TimeoutFor(job.initial).Some?
    ensures IndexHolds(JobStep(cfg, s, job, around))
  {
  }

  lemma {:induction false} WriteBackKeepsIndex(cfg: Config, s: State, h: HailId, reading: Reading,
                                               around: Surroundings)
    requires IndexHolds(s) && h < |s.hails|
    ensures IndexHolds(WriteBack(cfg, s, h, reading, around))
  {
  }

  /** Whatever comes between a reading and its write-back, a taxi has one active hail at most. */
  lemma {:induction false} EveryInterleavingKeepsIndex(cfg: Config, s: SplitState, actions: seq<SplitAction>)
    requires IndexHolds(s.core)
    ensures IndexHolds(SplitRun(cfg, s, actions).core)
    decreases |actions|
  {
    if actions != [] {
      if Enabled(s, actions[0]) {
        match actions[0]
        case Whole(action) => StepKeepsIndex(cfg, s.core, action);
        case Begin(_) =>
        case Finish(k, around) =>
          WithoutIsSubsequence(s.core.jobs, k);
          var h := s.core.jobs[k].hail;
          WriteBackKeepsIndex(cfg, s.core.(jobs := Without(s.core.jobs, k)), h, s.readings[h], around);
      }
      EveryInterleavingKeepsIndex(cfg, SplitStep(cfg, s, actions[0]), actions[1..]);
    }
  }

  // -------------------------------------------- undisturbed writes are atomic

  /** What a reading says about the hail as it is now. */
  ghost predicate ReadingFits(s: State, h: HailId, reading: Reading) {
    && h < |s.hails|
    && SameHail(reading.row, s.hails[h])
    && Faithful(reading.row)
    && (reading.row.status.Received? ==> reading.taxi.Answering?)
  }

  ghost predicate SplitInv(cfg: Config, s: SplitState) {
    && Inv(cfg, s.core)
    && (forall h | h in s.readings :: ReadingFits(s.core, h, s.readings[h]))
  }

  /** The hail is still received, as the request read it. */
  predicate Undisturbed(s: SplitState, a: SplitAction)
    requires Keys(s.core)
  {
    Enabled(s, a) && a.Finish? ==>
      var h := s.core.jobs[a.index].hail;
      s.readings[h].row.status.Received? ==> s.core.hails[h].status.Received?
  }

  /** A received hail has the one entry of its creation. */
  lemma {:induction false} ReceivedIsNew(row: HailRow)
    requires Faithful(row)
    ensures row.status.Received? <==> |row.log| == 1
  {
    if |row.log| > 1 {
      LogClimbs(row, 0, |row.log| - 1);
    }
  }

  /** Writing back to the very row that was read is the whole request in one step. */
  lemma {:induction false} WriteToSameRow(cfg: Config, s: State, h: HailId, reading: Reading, around: Surroundings)
    requires Keys(s) && h < |s.hails| && reading.row == s.hails[h]
    requires reading.row.status.Received? ==> !OtherActiveOnTaxi(s, h) && !reading.taxi.Free?
    ensures WriteBack(cfg, s, h, reading, around) == SendStep(cfg, s, h, around)
  {
  }

  lemma {:induction false} ActiveIsAlone(s: State, h: HailId)
    requires SingleActive(s) && Active(s, h)
    ensures !OtherActiveOnTaxi(s, h)
  {
  }

  /** A row that is still received is the row that was read. */
  lemma {:induction false} StillReceivedIsSameRow(s: State, h: HailId, reading: Reading)
    requires ReadingFits(s, h, reading) && RowsFaithful(s)
    requires reading.row.status.Received? && s.hails[h].status.Received?
    ensures reading.row == s.hails[h]
  {
    ReceivedIsNew(reading.row);
    ReceivedIsNew(s.hails[h]);
  }

  /** A hail that had left received when it was read has left it still. */
  lemma {:induction false} LogCannotReturn(row: HailRow, row': HailRow)
    requires Faithful(row) && Faithful(row') && SameHail(row, row') && !row.status.Received?
    ensures !row'.status.Received?
  {
    ReceivedIsNew(row);
    ReceivedIsNew(row');
  }

  lemma {:induction false} WriteIsSend(cfg: Config, s: State, h: HailId, reading: Reading, around: Surroundings)
    requires Keys(s) && SingleActive(s) && RowsFaithful(s) && ReadingFits(s, h, reading)
    requires reading.row.status.Received? ==> s.hails[h].status.Received?
    ensures WriteBack(cfg, s, h, reading, around) == SendStep(cfg, s, h, around)
  {
    if reading.row.status.Received? {
      StillReceivedIsSameRow(s, h, reading);
      ActiveIsAlone(s, h);
      WriteToSameRow(cfg, s, h, reading, around);
    } else {
      LogCannotReturn(reading.row, s.hails[h]);
    }
  }

  lemma {:induction false} ReadingFitsWithoutJob(cfg: Config, s: State, k: nat, h: HailId, reading: Reading)
    requires Inv(cfg, s) && k < |s.jobs| && ReadingFits(s, h, reading)
    ensures
      var s' := s.(jobs := Without(s.jobs, k));
      Keys(s') && SingleActive(s') && RowsFaithful(s') && ReadingFits(s', h, reading)
  {
  }

  /** The write-back and the whole request, both on the rows without the job they take off the queue. */
  lemma {:induction false} FinishIsWriteBack(cfg: Config, s: SplitState, k: nat, around: Surroundings)
    requires Keys(s.core) && Enabled(s, Finish(k, around))
    ensures
      var h, core := s.core.jobs[k].hail, s.core.(jobs := Without(s.core.jobs, k));
      && s.core.jobs[k] == Send(h) && h < |core.hails|
      && SplitStep(cfg, s, Finish(k, around)).core == WriteBack(cfg, core, h, s.readings[h], around)
      && Step(cfg, s.core, RunJob(k, around)) == SendStep(cfg, core, h, around)
  {
  }

  /** An undisturbed write-back does what the whole request would do now. */
  lemma {:induction false} UndisturbedWriteIsAtomic(cfg: Config, s: SplitState, k: nat, around: Surroundings)
    requires SplitInv(cfg, s) && Enabled(s, Finish(k, around)) && Undisturbed(s, Finish(k, around))
    ensures
      var s' := SplitStep(cfg, s, Finish(k, around));
      s'.core == Step(cfg, s.core, RunJob(k, around))
  {
    var h := s.core.jobs[k].hail;
    FinishIsWriteBack(cfg, s, k, around);
    ReadingFitsWithoutJob(cfg, s.core, k, h, s.readings[h]);
    WriteIsSend(cfg, s.core.(jobs := Without(s.core.jobs, k)), h, s.readings[h], around);
  }

  /** The requests and jobs of the atomic protocol that a split run amounts to. */
  function Flatten(cfg: Config, s: SplitState, actions: seq<SplitAction>): seq<Action>
    requires Keys(s.core)
    decreases |actions|
  {
    if actions == [] then []
    else
      var rest := Flatten(cfg, SplitStep(cfg, s, actions[0]), actions[1..]);
      if !Enabled(s, actions[0]) then rest
      else match actions[0]
        case Whole(action) => [action] + rest
        case Begin(_) => rest
        case Finish(k, around) => [RunJob(k, around)] + rest
  }

  ghost predicate AllUndisturbed(cfg: Config, s: SplitState, actions: seq<SplitAction>)
    requires Keys(s.core)
    decreases |actions|
  {
    actions == [] || (Undisturbed(s, actions[0]) && AllUndisturbed(cfg, SplitStep(cfg, s, actions[0]), actions[1..]))
  }

  lemma {:induction false} CoreGrowthKeepsReadings(cfg: Config, s: SplitState, core: State)
    requires SplitInv(cfg, s) && Inv(cfg, core) && Grows(s.core, core)
    ensures SplitInv(cfg, s.(core := core))
  {
  }

  lemma {:induction false} SplitStepKeepsInv(cfg: Config, s: SplitState, a: SplitAction)
    requires SplitInv(cfg, s) && Undisturbed(s, a)
    ensures SplitInv(cfg, SplitStep(cfg, s, a))
  {
    if Enabled(s, a) {
      match a
      case Whole(action) =>
        StepKeepsInv(cfg, s.core, action);
        StepGrows(cfg, s.core, action);
        CoreGrowthKeepsReadings(cfg, s, Step(cfg, s.core, action));
      case Begin(k) =>
      case Finish(k, around) =>
        UndisturbedWriteIsAtomic(cfg, s, k, around);
        StepKeepsInv(cfg, s.core, RunJob(k, around));
        StepGrows(cfg, s.core, RunJob(k, around));
        CoreGrowthKeepsReadings(cfg, s, Step(cfg, s.core, RunJob(k, around)));
    }
  }

  /**
   When every write-back finds the hail as it was read, a split run ends in the
   state of an atomic run, so all that holds of atomic runs holds of it.
   */
  lemma {:induction false} UndisturbedRunsAreAtomic(cfg: Config, s: SplitState, actions: seq<SplitAction>)
    requires SplitInv(cfg, s) && AllUndisturbed(cfg, s, actions)
    ensures SplitInv(cfg, SplitRun(cfg, s, actions))
    ensures SplitRun(cfg, s, actions).core == Run(cfg, s.core, Flatten(cfg, s, actions))
    decreases |actions|
  {
    if actions != [] {
      var a, s' := actions[0], SplitStep(cfg, s, actions[0]);
      SplitStepKeepsInv(cfg, s, a);
      UndisturbedRunsAreAtomic(cfg, s', actions[1..]);
      if Enabled(s, a) {
        if a.Finish? {
          UndisturbedWriteIsAtomic(cfg, s, a.index, a.around);
        }
        var rest := Flatten(cfg, s', actions[1..]);
        if !a.Begin? {
          var first := if a.Whole? then a.action else RunJob(a.index, a.around);
          assert Flatten(cfg, s, actions) == [first] + rest;
          assert ([first] + rest)[1..] == rest;
        }
      }
    }
  }

  /** A run from an empty service has the same end as an atomic run from it. */
  lemma {:induction false} UndisturbedServiceIsAtomic(cfg: Config, s: State, actions: seq<SplitAction>)
    requires Initial(s) && AllUndisturbed(cfg, SplitState(s, map[]), actions)
    ensures
      var end := SplitRun(cfg, SplitState(s, map[]), actions).core;
      end == Run(cfg, s, Flatten(cfg, SplitState(s, map[]), actions)) && Inv(cfg, end)
  {
    UndisturbedRunsAreAtomic(cfg, SplitState(s, map[]), actions);
  }

  // -------------------------------------------- disturbed writes rewrite history

  /** A hail that is over stays as it is. */
  ghost predicate OverIsOver(s: State, s': State) {
    forall i | 0 <= i < |s.hails| && Terminal(s.hails[i].status) :: i < |s'.hails| && s'.hails[i] == s.hails[i]
  }

  /** The write-back of a reading that is out of date replaces the customer's refusal. */
  lemma {:induction false} DisturbedWriteRewrites(cfg: Config, s: State, h: HailId, reading: Reading,
                                                  around: Surroundings)
    requires Keys(s) && ReadingFits(s, h, reading) && RowsFaithful(s) && s.hails[h].status.DeclinedByCustomer?
    requires
      var e := SendEffectOn(cfg, reading.row, around);
      e.Effect? && (Terminal(e.row.status) || !OtherActiveOnTaxi(s, h))
    ensures !OverIsOver(s, WriteBack(cfg, s, h, reading, around))
    ensures !Grows(s, WriteBack(cfg, s, h, reading, around))
  {
  }

  lemma {:induction false} SameEngagement(s: State, s': State, h: HailId)
    requires s.hails == s'.hails && h < |s.hails|
    ensures OtherActiveOnTaxi(s, h) ==> OtherActiveOnTaxi(s', h)
    ensures OtherActiveOnTaxi(s', h) ==> OtherActiveOnTaxi(s, h)
  {
  }

  lemma {:induction false} SameHails(s: State, s': State, end: State)
    requires s.hails == s'.hails
    ensures OverIsOver(s, end) == OverIsOver(s', end) && Grows(s, end) == Grows(s', end)
  {
  }

  lemma {:induction false} UndisturbedWriteKeepsHistory(cfg: Config, s: SplitState, k: nat, around: Surroundings)
    requires SplitInv(cfg, s) && Enabled(s, Finish(k, around)) && Undisturbed(s, Finish(k, around))
    requires s.readings[s.core.jobs[k].hail].row.status.Received?
    ensures
      var s' := SplitStep(cfg, s, Finish(k, around));
      OverIsOver(s.core, s'.core) && Grows(s.core, s'.core)
  {
    UndisturbedWriteIsAtomic(cfg, s, k, around);
    StepGrows(cfg, s.core, RunJob(k, around));
  }

  /** The write-back of this job has something to write, and the unique index does not refuse it. */
  ghost predicate Written(cfg: Config, s: SplitState, k: nat, around: Surroundings)
    requires Keys(s.core) && Enabled(s, Finish(k, around))
  {
    var h := s.core.jobs[k].hail;
    var e := SendEffectOn(cfg, s.readings[h].row, around);
    e.Effect? && (Terminal(e.row.status) || !OtherActiveOnTaxi(s.core, h))
  }

  lemma {:induction false} NothingToWrite(cfg: Config, s: State, h: HailId, reading: Reading, around: Surroundings)
    requires Keys(s) && h < |s.hails|
    requires
      var e := SendEffectOn(cfg, reading.row, around);
      e.Effect? ==> !Terminal(e.row.status) && OtherActiveOnTaxi(s, h)
    ensures WriteBack(cfg, s, h, reading, around) == s
  {
  }

  /** A write-back that does not happen changes nothing but the queue. */
  lemma {:induction false} UnwrittenChangesNothing(cfg: Config, s: SplitState, k: nat, around: Surroundings)
    requires Keys(s.core) && Enabled(s, Finish(k, around)) && !Written(cfg, s, k, around)
    ensures SplitStep(cfg, s, Finish(k, around)).core == s.core.(jobs := Without(s.core.jobs, k))
  {
    var core := s.core.(jobs := Without(s.core.jobs, k));
    FinishIsWriteBack(cfg, s, k, around);
    SameEngagement(s.core, core, s.core.jobs[k].hail);
    NothingToWrite(cfg, core, s.core.jobs[k].hail, s.readings[s.core.jobs[k].hail], around);
  }

  lemma {:induction false} DisturbedWriteLosesHistory(cfg: Config, s: SplitState, k: nat, around: Surroundings)
    requires SplitInv(cfg, s) && Enabled(s, Finish(k, around)) && !Undisturbed(s, Finish(k, around))
    requires Written(cfg, s, k, around)
    ensures
      var s' := SplitStep(cfg, s, Finish(k, around));
      !OverIsOver(s.core, s'.core) && !Grows(s.core, s'.core)
  {
    var h := s.core.jobs[k].hail;
    var core := s.core.(jobs := Without(s.core.jobs, k));
    FinishIsWriteBack(cfg, s, k, around);
    PendingSendIsReceived(s.core, h);
    assert ReadingFits(s.core, h, s.readings[h]);
    SameEngagement(s.core, core, h);
    DisturbedWriteRewrites(cfg, core, h, s.readings[h], around);
    SameHails(s.core, core, SplitStep(cfg, s, Finish(k, around)).core);
  }

  /**
   A write-back leaves finished hails alone, and the histories whole, exactly
   when the hail it read as received still is, or when nothing is written: the
   request has no effect, or the index refuses it.
   */
  lemma {:induction false} HistorySurvivesExactlyWhenUndisturbed(cfg: Config, s: SplitState, k: nat,
                                                                 around: Surroundings)
    requires SplitInv(cfg, s) && Enabled(s, Finish(k, around))
    ensures
      var s' := SplitStep(cfg, s, Finish(k, around));
      var whole := Undisturbed(s, Finish(k, around)) || !Written(cfg, s, k, around);
      (OverIsOver(s.core, s'.core) <==> whole) && (Grows(s.core, s'.core) <==> whole)
  {
    if !Written(cfg, s, k, around) {
      UnwrittenChangesNothing(cfg, s, k, around);
    } else if Undisturbed(s, Finish(k, around)) {
      UndisturbedWriteKeepsHistory(cfg, s, k, around);
    } else {
      DisturbedWriteLosesHistory(cfg, s, k, around);
    }
  }

  // -------------------------------------------- disturbed writes and the taxi

  /** A hail that has been refused by its customer leaves its taxi to others, or idle. */
  lemma {:induction false} IdleTaxiIsUpdatable(s: State, h: HailId)
    requires Keys(s) && NoStrandedTaxi(s) && h < |s.hails| && Terminal(s.hails[h].status) && !OtherActiveOnTaxi(s, h)
    ensures Updatable(s.taxis[s.hails[h].taxi].status)
  {
  }

  /** A reply that arrives late makes the hail live again on a taxi that is free or off. */
  lemma {:induction false} LateReplyUncouples(cfg: Config, s: State, h: HailId, reading: Reading, around: Surroundings)
    requires Keys(s) && NoStrandedTaxi(s) && ReadingFits(s, h, reading) && s.hails[h].status.DeclinedByCustomer?
    requires
      var e := SendEffectOn(cfg, reading.row, around);
      e.Effect? && !e.fails && !OtherActiveOnTaxi(s, h)
    ensures Keys(WriteBack(cfg, s, h, reading, around)) && !Coupled(WriteBack(cfg, s, h, reading, around))
  {
    var s', e := WriteBack(cfg, s, h, reading, around), SendEffectOn(cfg, reading.row, around);
    SendEffectAdvances(cfg, reading.row, around);
    IdleTaxiIsUpdatable(s, h);
    assert s'.taxis[s.hails[h].taxi] == s.taxis[s.hails[h].taxi] && s'.hails[h].status == e.row.status;
  }

  /** A failure that is noticed late frees the taxi, whoever has it. */
  lemma {:induction false} LateFailureUncouples(cfg: Config, s: State, h: HailId, reading: Reading,
                                                around: Surroundings)
    requires Keys(s) && Coupled(s) && ReadingFits(s, h, reading) && s.hails[h].status.DeclinedByCustomer?
    requires SendEffectOn(cfg, reading.row, around).Effect? && SendEffectOn(cfg, reading.row, around).fails
    ensures
      var s' := WriteBack(cfg, s, h, reading, around);
      Keys(s') && (Coupled(s') <==> !OtherActiveOnTaxi(s, h))
  {
    var s', t := WriteBack(cfg, s, h, reading, around), s.hails[h].taxi;
    SendEffectAdvances(cfg, reading.row, around);
    if OtherActiveOnTaxi(s, h) {
      var i :| 0 <= i < |s.hails| && i != h && s.hails[i].taxi == t && Active(s, i);
      assert s'.hails[i] == s.hails[i] && s'.taxis[t].status == Free;
    }
  }

  /**
   A write-back leaves every active hail in agreement with its taxi exactly when
   the hail is still received, when nothing is written, or when the request
   failed and no other hail has the taxi by now.
   */
  lemma {:induction false} CouplingSurvivesExactly(cfg: Config, s: SplitState, k: nat, around: Surroundings)
    requires SplitInv(cfg, s) && Enabled(s, Finish(k, around))
    ensures
      var h := s.core.jobs[k].hail;
      var e := SendEffectOn(cfg, s.readings[h].row, around);
      var s' := SplitStep(cfg, s, Finish(k, around));
      Coupled(s'.core) <==>
      || Undisturbed(s, Finish(k, around))
      || !Written(cfg, s, k, around)
      || (e.fails && !OtherActiveOnTaxi(s.core, h))
  {
    if !Written(cfg, s, k, around) {
      UnwrittenChangesNothing(cfg, s, k, around);
      DequeueKeepsInv(cfg, s.core, k);
    } else if Undisturbed(s, Finish(k, around)) {
      UndisturbedWriteIsAtomic(cfg, s, k, around);
      StepKeepsInv(cfg, s.core, RunJob(k, around));
    } else {
      DisturbedCoupling(cfg, s, k, around);
    }
  }

  lemma {:induction false} DisturbedCoupling(cfg: Config, s: SplitState, k: nat, around: Surroundings)
    requires SplitInv(cfg, s) && Enabled(s, Finish(k, around)) && !Undisturbed(s, Finish(k, around))
    requires Written(cfg, s, k, around)
    ensures
      var h := s.core.jobs[k].hail;
      Coupled(SplitStep(cfg, s, Finish(k, around)).core) <==>
      SendEffectOn(cfg, s.readings[h].row, around).fails && !OtherActiveOnTaxi(s.core, h)
  {
    var h := s.core.jobs[k].hail;
    var core := s.core.(jobs := Without(s.core.jobs, k));
    FinishIsWriteBack(cfg, s, k, around);
    PendingSendIsReceived(s.core, h);
    DequeueKeepsInv(cfg, s.core, k);
    SameEngagement(s.core, core, h);
    assert ReadingFits(core, h, s.readings[h]);
    SendEffectAdvances(cfg, s.readings[h].row, around);
    if SendEffectOn(cfg, s.readings[h].row, around).fails {
      LateFailureUncouples(cfg, core, h, s.readings[h], around);
    } else {
      LateReplyUncouples(cfg, core, h, s.readings[h], around);
    }
  }

  // -------------------------------------------- two runs

  /** What the operator may answer. */
  const LATE_REPLY := Surroundings(101.0, Answered(200, Decoded(JArray([]))), [])
  const LATE_FAILURE := Surroundings(101.0, Unreachable, [])

  const ASKED := Asked(0, 7)
  const DECLINED := Changed(ASKED, DeclinedByCustomer, Some(2), NoReason, "")

  /** The customer's request, read by its send job. */
  function BeingSent(): SplitState {
    SplitState(State([ASKED], map[7 := Description(1, Answering)], [Send(0)]), map[0 := Reading(ASKED, Answering)])
  }

  /** The same with the hail declined meanwhile. */
  function Declined(): SplitState {
    SplitState(State([DECLINED], map[7 := Description(1, Free)], [Send(0)]), map[0 := Reading(ASKED, Answering)])
  }

  /** Then another customer asks for the same taxi. */
  function AskedAgain(): SplitState {
    SplitState(State([DECLINED, Asked(1, 7)], map[7 := Description(1, Answering)], [Send(0), Send(1)]),
               map[0 := Reading(ASKED, Answering)])
  }

  lemma {:induction false} RequestIsCommitted()
    ensures SplitStep(NETWORKED, SplitState(QUIET, map[]), Whole(Ask(0, 7))) == SplitState(BeingSent().core, map[])
  {
    assert CreateCheck(NETWORKED, QUIET, Ask(0, 7).request).None?;
    assert QUIET.hails + [ASKED] == [ASKED] && QUIET.jobs + [Send(0)] == [Send(0)];
  }

  lemma {:induction false} RequestIsRead()
    ensures SplitRun(NETWORKED, SplitState(QUIET, map[]), [Whole(Ask(0, 7)), Begin(0)]) == BeingSent()
  {
    var a := SplitState(BeingSent().core, map[]);
    RequestIsCommitted();
    assert [Whole(Ask(0, 7)), Begin(0)][1..] == [Begin(0)];
    assert SplitStep(NETWORKED, a, Begin(0)) == BeingSent();
    assert SplitRun(NETWORKED, a, [Begin(0)]) == SplitRun(NETWORKED, BeingSent(), []);
  }

  lemma {:induction false} RefusalIsCommitted()
    ensures SplitStep(NETWORKED, BeingSent(), Whole(PutHail(0, CLIENT, To(DeclinedByCustomer)))) == Declined()
  {
  }

  lemma {:induction false} NextIsCommitted()
    ensures SplitStep(NETWORKED, Declined(), Whole(Ask(1, 7))) == AskedAgain()
  {
    var core := Declined().core;
    assert CreateCheck(NETWORKED, core, Ask(1, 7).request).None?;
    assert core.hails + [Asked(1, 7)] == AskedAgain().core.hails && core.jobs + [Send(1)] == AskedAgain().core.jobs;
  }

  /**
   The customer declines while the request waits for its operator, and the
   operator then accepts: the hail is live again, its refusal is gone from the
   log, and the taxi it stands for is free.
   */
  lemma {:induction false} LateReplyRevivesADeclinedHail()
    ensures
      var s := SplitRun(NETWORKED, SplitState(QUIET, map[]), [Whole(Ask(0, 7)), Begin(0)]);
      var s1 := SplitStep(NETWORKED, s, Whole(PutHail(0, CLIENT, To(DeclinedByCustomer))));
      var s2 := SplitStep(NETWORKED, s1, Finish(0, LATE_REPLY));
      && |s1.core.hails| == 1 && s1.core.hails[0].status == DeclinedByCustomer && |s1.core.hails[0].log| == 2
      && |s2.core.hails| == 1 && s2.core.hails[0].status == ReceivedByOperator
      && !Visited(s2.core.hails[0], DeclinedByCustomer)
      && 7 in s2.core.taxis && s2.core.taxis[7].status == Free
  {
    RequestIsRead();
    RefusalIsCommitted();
    LateReplyIsWritten();
  }

  lemma {:induction false} LateReplyIsWritten()
    ensures
      var s := SplitStep(NETWORKED, Declined(), Finish(0, LATE_REPLY));
      && |s.core.hails| == 1 && s.core.hails[0].status == ReceivedByOperator
      && !Visited(s.core.hails[0], DeclinedByCustomer)
      && 7 in s.core.taxis && s.core.taxis[7].status == Free
  {
  }

  /**
   The customer declines, another customer hails the taxi, and the request for
   the first hail then fails: the taxi is free under the other's hail.
   */
  lemma {:induction false} LateFailureFreesAnEngagedTaxi()
    ensures
      var s := SplitRun(NETWORKED, SplitState(QUIET, map[]), [Whole(Ask(0, 7)), Begin(0)]);
      var s1 := SplitStep(NETWORKED, s, Whole(PutHail(0, CLIENT, To(DeclinedByCustomer))));
      var s2 := SplitStep(NETWORKED, s1, Whole(Ask(1, 7)));
      var s3 := SplitStep(NETWORKED, s2, Finish(0, LATE_FAILURE));
      && |s3.core.hails| == 2 && Active(s3.core, 1) && s3.core.hails[1].taxi == 7
      && 7 in s3.core.taxis && s3.core.taxis[7].status == Free
  {
    RequestIsRead();
    RefusalIsCommitted();
    NextIsCommitted();
    LateFailureIsWritten();
  }

  lemma {:induction false} LateFailureIsWritten()
    ensures
      var s := SplitStep(NETWORKED, AskedAgain(), Finish(0, LATE_FAILURE));
      && |s.core.hails| == 2 && Active(s.core, 1) && s.core.hails[1].taxi == 7
      && 7 in s.core.taxis && s.core.taxis[7].status == Free
  {
    assert Without(AskedAgain().core.jobs, 0) == [Send(1)];
    var failed := Changed(ASKED, Failure, None, OperatorFailed, "");
    assert SendEffectOn(NETWORKED, ASKED, LATE_FAILURE) == Effect(failed, true);
  }
}
