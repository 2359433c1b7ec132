/**
 What each request and each job does to the rows, told by its effect: who may
 move a hail and where to, which replies fail a hail, when a taxi can be hailed or
 changed, and to whom a hail belongs.
 */
module DispatchOutcomes {
  import opened Wrappers
  import opened HailTypes
  import opened HailMachine
  import opened Dispatch
  import opened DispatchInvariant
  import opened DispatchHistory

  // ------------------------------------------------- to whom a hail belongs

  /** Every hail is of the operator of its taxi. */
  ghost predicate OwnersAgree(s: State)
    requires Keys(s)
  {
    forall i | 0 <= i < |s.hails| :: s.hails[i].operateur == s.taxis[s.hails[i].taxi].operateur
  }

  /** The same taxis, each with the operator it had. */
  ghost predicate SameOperators(s: State, s': State) {
    s'.taxis.Keys == s.taxis.Keys && forall t | t in s.taxis :: s'.taxis[t].operateur == s.taxis[t].operateur
  }

  lemma {:induction false} JobKeepsOperators(cfg: Config, s: State, k: nat, around: Surroundings)
    requires Keys(s) && k < |s.jobs| && !Waits(s, s.jobs[k])
    ensures SameOperators(s, Step(cfg, s, RunJob(k, around)))
  {
  }

  lemma {:induction false} StepKeepsOperators(cfg: Config, s: State, a: Action)
    requires Keys(s)
    ensures SameOperators(s, Step(cfg, s, a))
  {
    match a
    case RunJob(k, around) => if k < |s.jobs| && !Waits(s, s.jobs[k]) { JobKeepsOperators(cfg, s, k, around); }
    case _ =>
  }

  lemma {:induction false} JobMakesOwned(cfg: Config, s: State, k: nat, around: Surroundings)
    requires Keys(s) && k < |s.jobs| && !Waits(s, s.jobs[k])
    ensures
      var s' := Step(cfg, s, RunJob(k, around));
      forall i | |s.hails| <= i < |s'.hails| :: s'.hails[i].operateur == s'.taxis[s'.hails[i].taxi].operateur
  {
  }

  lemma {:induction false} StepKeepsOwners(cfg: Config, s: State, a: Action)
    requires Inv(cfg, s) && OwnersAgree(s)
    ensures OwnersAgree(Step(cfg, s, a))
  {
    var s' := Step(cfg, s, a);
    StepGrows(cfg, s, a);
    StepKeepsOperators(cfg, s, a);
    if a.RunJob? && a.index < |s.jobs| && !Waits(s, s.jobs[a.index]) {
      JobMakesOwned(cfg, s, a.index, a.around);
    }
    forall i | 0 <= i < |s'.hails|
      ensures s'.hails[i].operateur == s'.taxis[s'.hails[i].taxi].operateur
    {
      assert i < |s.hails| ==> SameHail(s.hails[i], s'.hails[i]);
    }
  }

  lemma {:induction false} RunKeepsOwners(cfg: Config, s: State, actions: seq<Action>)
    requires Inv(cfg, s) && OwnersAgree(s)
    ensures OwnersAgree(Run(cfg, s, actions)) && SameOperators(s, Run(cfg, s, actions))
    decreases |actions|
  {
    if actions != [] {
      StepKeepsInv(cfg, s, actions[0]);
      StepKeepsOwners(cfg, s, actions[0]);
      StepKeepsOperators(cfg, s, actions[0]);
      RunKeepsOwners(cfg, Step(cfg, s, actions[0]), actions[1..]);
    }
  }

  /**
   After any run, every hail is of the operator of its taxi, whether a customer
   asked for it or a reassignment made it, and a taxi's operator is the one it had.
   */
  lemma {:induction false} HailsBelongToTheirTaxis(cfg: Config, s: State, actions: seq<Action>)
    requires Initial(s)
    ensures
      var s' := Run(cfg, s, actions);
      && s'.taxis.Keys == s.taxis.Keys
      && (forall t | t in s.taxis :: s'.taxis[t].operateur == s.taxis[t].operateur)
      && (forall i | 0 <= i < |s'.hails| ::
            s'.hails[i].taxi in s.taxis && s'.hails[i].operateur == s.taxis[s'.hails[i].taxi].operateur)
  {
    RunKeepsOwners(cfg, s, actions);
  }

  // ------------------------------------------------- who may move a hail

  /** The moves that are an operator's, by what they reach. */
  ghost predicate OperatorMove(from: HailStatus, to: HailStatus) {
    match to
    case ReceivedByTaxi => from.ReceivedByOperator?
    case AcceptedByTaxi | DeclinedByTaxi => from.ReceivedByTaxi?
    case CustomerOnBoard => from.AcceptedByCustomer?
    case Finished => from.CustomerOnBoard?
    case IncidentTaxi =>
      from.ReceivedByTaxi? || from.AcceptedByTaxi? || from.AcceptedByCustomer? || from.CustomerOnBoard?
    case _ => false
  }

  /** The moves that are the customer's application's. */
  ghost predicate ClientMove(from: HailStatus, to: HailStatus) {
    match to
    case AcceptedByCustomer => from.AcceptedByTaxi?
    case DeclinedByCustomer =>
      from.Received? || from.SentToOperator? || from.ReceivedByOperator? || from.ReceivedByTaxi? || from.AcceptedByTaxi?
    case IncidentCustomer =>
      from.ReceivedByTaxi? || from.AcceptedByTaxi? || from.AcceptedByCustomer? || from.CustomerOnBoard?
    case _ => false
  }

  lemma {:induction false} RolesAreByTarget(from: HailStatus, to: HailStatus)
    ensures RequiredRole(from, to) == Some(Operateur) <==> OperatorMove(from, to)
    ensures RequiredRole(from, to) == Some(Moteur) <==> ClientMove(from, to)
    ensures RequiredRole(from, to) == None <==> !OperatorMove(from, to) && !ClientMove(from, to)
  {
  }

  /** The user is the hail's operator, the application that asked for it, or an administrator. */
  ghost predicate Party(row: HailRow, user: User) {
    user.id == row.operateur || user.id == row.session.moteur || Admin in user.roles
  }

  /** The user holds the role whose move this is. */
  ghost predicate MayMove(user: User, from: HailStatus, to: HailStatus) {
    || (OperatorMove(from, to) && (Operateur in user.roles || Admin in user.roles))
    || (ClientMove(from, to) && (Moteur in user.roles || Admin in user.roles))
  }

  /** A number goes with an acceptance, now or from before. */
  ghost predicate NumberKnown(row: HailRow, to: HailStatus, phone: string) {
    to.AcceptedByTaxi? ==> phone != "" || row.phone != ""
  }

  /** No move of the hail has carried this event id. */
  ghost predicate UnseenEvent(row: HailRow, event: string) {
    event != "" ==> forall k | 0 <= k < |row.log| :: row.log[k].event != event
  }

  /** Everything that a request must meet to move a hail. */
  ghost predicate Movable(s: State, h: HailId, user: User, r: HailRequest) {
    && h < |s.hails| && r.status.Some?
    && var row, to := s.hails[h], r.status.value;
    && Party(row, user) && MayMove(user, row.status, to) && NumberKnown(row, to, r.phone) && UnseenEvent(row, r.event)
    && !r.extra.ForbiddenExtra? && (r.event == "" || r.extra.NoExtra?)
  }

  /** The hail as a request leaves it: its status, the number of an acceptance, and one entry more in its log. */
  ghost function MovedBy(row: HailRow, user: User, to: HailStatus, phone: string, event: string): HailRow {
    row.(status := to,
         phone := if to == AcceptedByTaxi && phone != "" then phone else row.phone,
         log := row.log + [Entry(Some(row.status), to, Some(user.id), NoReason, event)])
  }

  /** What becomes of the taxi when its hail gets this far. */
  ghost function TaxiAfter(to: HailStatus, taxi: TaxiStatus): TaxiStatus {
    if to == AcceptedByCustomer then Oncoming
    else if to == CustomerOnBoard then Occupied
    else if to in {DeclinedByTaxi, DeclinedByCustomer, IncidentTaxi, IncidentCustomer, Finished} then Free
    else taxi
  }

  /** What is left to do after a request has moved a hail. */
  ghost function LeftToDo(h: HailId, to: HailStatus): seq<Job> {
    if to == DeclinedByTaxi then [Reassign(h)]
    else if to == ReceivedByTaxi then [Timer(h, to, TimeoutTaxi, Occupied)]
    else if to == AcceptedByTaxi then [Timer(h, to, TimeoutCustomer, Free)]
    else if to == AcceptedByCustomer then [Timer(h, to, TimeoutAcceptedByCustomer, Occupied)]
    else if to == CustomerOnBoard then [Timer(h, to, TimeoutTaxi, Off)]
    else []
  }

  lemma {:induction false} UnseenIsUnprocessed(log: seq<Entry>, event: string)
    ensures ProcessedEvent(log, event).None? <==> (event != "" ==> forall k | 0 <= k < |log| :: log[k].event != event)
  {
    var p := ProcessedEvent(log, event);
    if p.Some? {
      var k :| 0 <= k < |log| && log[k] == p.value;
    }
  }

  /** A request that meets everything moves the hail, its taxi and the queue, and nothing else. */
  lemma {:induction false} MovableIsMoved(cfg: Config, s: State, h: HailId, user: User, r: HailRequest)
    requires Inv(cfg, s) && Movable(s, h, user, r)
    ensures
      var row, to := s.hails[h], r.status.value;
      var taxi := s.taxis[row.taxi];
      Step(cfg, s, PutHail(h, user, r)) ==
      State(s.hails[h := MovedBy(row, user, to, r.phone, r.event)],
            s.taxis[row.taxi := taxi.(status := TaxiAfter(to, taxi.status))],
            s.jobs + LeftToDo(h, to))
  {
    var row, to := s.hails[h], r.status.value;
    RolesAreByTarget(row.status, to);
    UnseenIsUnprocessed(row.log, r.event);
    assert !Terminal(row.status) && row.status != to;
    assert Transition(row, s.taxis[row.taxi].status, to, Some(user), r.phone, r.event) ==
           Ok(Applied(MovedBy(row, user, to, r.phone, r.event), TaxiAfter(to, s.taxis[row.taxi].status), true, false));
    assert s.jobs + [] == s.jobs;
  }

  lemma {:induction false} UnmovableIsLeft(cfg: Config, s: State, h: HailId, user: User, r: HailRequest)
    requires Inv(cfg, s) && !Movable(s, h, user, r)
    ensures Step(cfg, s, PutHail(h, user, r)) == s
  {
    var result := PutHailResult(s, h, user, r);
    if result.Ok? && result.value.Some? {
      var row, to, taxi := s.hails[h], r.status.value, s.taxis[s.hails[h].taxi];
      RolesAreByTarget(row.status, to);
      UnseenIsUnprocessed(row.log, r.event);
      assert !result.value.value.changed;
      assert result.value.value.row == row && result.value.value.taxi == taxi.status;
      assert s.hails[h := row] == s.hails && s.taxis[row.taxi := taxi] == s.taxis;
    }
  }

  /**
   A request on a hail changes anything if and only if its user is a party to the
   hail, holds the role of the move, gives the number that an acceptance needs, and
   does not repeat an event; and then it changes exactly this.
   */
  lemma {:induction false} RequestsMoveHailsExactly(cfg: Config, s: State, h: HailId, user: User, r: HailRequest)
    requires Inv(cfg, s)
    ensures
      var s' := Step(cfg, s, PutHail(h, user, r));
      if Movable(s, h, user, r) then
        var row, to := s.hails[h], r.status.value;
        var taxi := s.taxis[row.taxi];
        && s'.hails == s.hails[h := MovedBy(row, user, to, r.phone, r.event)]
        && s'.taxis == s.taxis[row.taxi := taxi.(status := TaxiAfter(to, taxi.status))]
        && s'.jobs == s.jobs + LeftToDo(h, to)
        && s' != s
      else s' == s
  {
    if Movable(s, h, user, r) {
      MovableIsMoved(cfg, s, h, user, r);
      var row, to := s.hails[h], r.status.value;
      assert MovedBy(row, user, to, r.phone, r.event).log != row.log;
    } else {
      UnmovableIsLeft(cfg, s, h, user, r);
    }
  }

  /** The first reason, in the order of the checks, why a request is refused; none when it is granted. */
  ghost predicate RefusedFor(s: State, h: HailId, user: User, r: HailRequest, e: PutError)
    requires Keys(s)
  {
    if h >= |s.hails| then e == HailNotFound
    else
      var row := s.hails[h];
      if !Party(row, user) then e == NotYourHail
      else match e
        case EventWithOtherFields => r.event != "" && (r.status.None? || r.extra != NoExtra)
        case FieldForbidden =>
          && r.extra.ForbiddenExtra? && r.event == ""
          && (r.status.None? || r.status.value == row.status
              || (MayMove(user, row.status, r.status.value) && NumberKnown(row, r.status.value, r.phone)))
        case Refused(reason) =>
          && r.status.Some? && (r.event == "" || r.extra == NoExtra)
          && RefusedMove(row, user, r.status.value, r.phone, r.event, reason)
        case _ => false
  }

  /** Why a move is refused: a repeated event, a hail that is over, no such move, no role, no number. */
  ghost predicate RefusedMove(row: HailRow, user: User, to: HailStatus, phone: string, event: string,
                              e: TransitionError)
  {
    match e
    case EventReused =>
      exists k | 0 <= k < |row.log| ::
        && event != "" && row.log[k].event == event && (row.log[k].to != to || row.log[k].user != Some(user.id))
        && forall j | 0 <= j < k :: row.log[j].event != event
    case HailOver => UnseenEvent(row, event) && row.status != to && Terminal(row.status)
    case ImpossibleTransition =>
      && UnseenEvent(row, event) && row.status != to && !Terminal(row.status)
      && !OperatorMove(row.status, to) && !ClientMove(row.status, to)
    case RoleMissing(role) =>
      && UnseenEvent(row, event) && !MayMove(user, row.status, to)
      && (OperatorMove(row.status, to) || ClientMove(row.status, to))
      && role == if OperatorMove(row.status, to) then Operateur else Moteur
    case PhoneMissing =>
      UnseenEvent(row, event) && MayMove(user, row.status, to) && !NumberKnown(row, to, phone)
  }

  lemma {:induction false} FirstProcessed(log: seq<Entry>, event: string) returns (k: nat)
    requires ProcessedEvent(log, event).Some?
    ensures k < |log| && log[k] == ProcessedEvent(log, event).value && log[k].event == event
    ensures forall j | 0 <= j < k :: log[j].event != event
  {
    if log[0].event == event {
      k := 0;
    } else {
      var i := FirstProcessed(log[1..], event);
      k := i + 1;
    }
  }

  lemma {:induction false} MovesAreRefusedExactly(row: HailRow, taxi: TaxiStatus, to: HailStatus, user: User,
                                                  phone: string, event: string, e: TransitionError)
    ensures Transition(row, taxi, to, Some(user), phone, event) == Err(e) <==>
            RefusedMove(row, user, to, phone, event, e)
  {
    RolesAreByTarget(row.status, to);
    UnseenIsUnprocessed(row.log, event);
    if ProcessedEvent(row.log, event).Some? {
      var k := FirstProcessed(row.log, event);
      assert e.EventReused? ==> (RefusedMove(row, user, to, phone, event, e) <==>
                                 row.log[k].to != to || row.log[k].user != Some(user.id));
    }
  }

  /** Each answer that refuses a request has its one reason. */
  lemma {:induction false} RequestsAreRefusedExactly(s: State, h: HailId, user: User, r: HailRequest, e: PutError)
    requires Keys(s)
    ensures PutHailResult(s, h, user, r) == Err(e) <==> RefusedFor(s, h, user, r, e)
  {
    if h < |s.hails| && r.status.Some? {
      var row := s.hails[h];
      RolesAreByTarget(row.status, r.status.value);
      UnseenIsUnprocessed(row.log, r.event);
      if e.Refused? {
        MovesAreRefusedExactly(row, s.taxis[row.taxi].status, r.status.value, user, r.phone, r.event, e.reason);
      }
    }
  }

  // ------------------------------------------------- who wrote an entry

  /** An administrator's request on this hail with this move. */
  ghost predicate MadeByAdmin(a: Action, h: HailId, e: Entry) {
    a.PutHail? && a.hail == h && Admin in a.user.roles && e.user == Some(a.user.id) && a.change.status == Some(e.to)
  }

  /** The entry is of a party to the hail. */
  ghost predicate OfAParty(row: HailRow, actions: seq<Action>, h: HailId, e: Entry) {
    || e.user == Some(row.operateur) || e.user == Some(row.session.moteur)
    || exists i | 0 <= i < |actions| :: MadeByAdmin(actions[i], h, e)
  }

  lemma {:induction false} NewEntryIsOfAParty(cfg: Config, s: State, a: Action, h: HailId, k: nat)
    requires Inv(cfg, s)
    requires h < |Step(cfg, s, a).hails| && k < |Step(cfg, s, a).hails[h].log|
    requires Step(cfg, s, a).hails[h].log[k].user.Some? && !WasThere(s, h, k, Step(cfg, s, a).hails[h].log[k])
    ensures OfAParty(Step(cfg, s, a).hails[h], [a], h, Step(cfg, s, a).hails[h].log[k])
  {
    var s' := Step(cfg, s, a);
    var e := s'.hails[h].log[k];
    UserEntryIsNew(cfg, s, a, h, k);
    if a.PutHail? {
      RequestsMoveHailsExactly(cfg, s, a.hail, a.user, a.change);
      assert Movable(s, a.hail, a.user, a.change);
      assert [a][0] == a;
      assert Admin in a.user.roles ==> MadeByAdmin([a][0], h, e);
    }
  }

  /**
   After any run, every entry that names a user names the hail's operator or the
   application that asked for it, or comes from a request of an administrator.
   */
  lemma {:induction false} EveryUserEntryIsOfAParty(cfg: Config, s: State, actions: seq<Action>, h: HailId, k: nat)
    requires Initial(s)
    requires h < |Run(cfg, s, actions).hails| && k < |Run(cfg, s, actions).hails[h].log|
    requires Run(cfg, s, actions).hails[h].log[k].user.Some?
    ensures OfAParty(Run(cfg, s, actions).hails[h], actions, h, Run(cfg, s, actions).hails[h].log[k])
    decreases |actions|
  {
    var n := |actions| - 1;
    if n >= 0 {
      assert actions == actions[..n] + [actions[n]];
      RunSplits(cfg, s, actions[..n], [actions[n]]);
      ReachableInv(cfg, s, actions[..n]);
      var before := Run(cfg, s, actions[..n]);
      assert Run(cfg, before, [actions[n]]) == Step(cfg, before, actions[n]);
      EntryIsOfAParty(cfg, s, actions, before, h, k);
    }
  }

  lemma {:induction false} EntryIsOfAParty(cfg: Config, s: State, actions: seq<Action>, before: State, h: HailId,
                                           k: nat)
    requires Initial(s) && actions != [] && before == Run(cfg, s, actions[..|actions| - 1]) && Inv(cfg, before)
    requires
      var end := Step(cfg, before, actions[|actions| - 1]);
      h < |end.hails| && k < |end.hails[h].log| && end.hails[h].log[k].user.Some?
    ensures
      var end := Step(cfg, before, actions[|actions| - 1]);
      OfAParty(end.hails[h], actions, h, end.hails[h].log[k])
    decreases |actions|, 0
  {
    var n := |actions| - 1;
    var end := Step(cfg, before, actions[n]);
    var e := end.hails[h].log[k];
    if WasThere(before, h, k, e) {
      EveryUserEntryIsOfAParty(cfg, s, actions[..n], h, k);
      StepGrows(cfg, before, actions[n]);
      assert SameHail(before.hails[h], end.hails[h]);
      if i :| 0 <= i < n && MadeByAdmin(actions[..n][i], h, e) {
        assert MadeByAdmin(actions[i], h, e);
      }
    } else {
      NewEntryIsOfAParty(cfg, before, actions[n], h, k);
      if i :| 0 <= i < 1 && MadeByAdmin([actions[n]][i], h, e) {
        assert MadeByAdmin(actions[n], h, e);
      }
    }
  }

  // ------------------------------------------------- the request to the operator

  /** The operator could not be reached, did not answer in JSON, or answered with a code that is no success. */
  ghost predicate Fails(reply: Reply) {
    || reply == Unreachable
    || (reply.Answered? && (reply.body == NotJson || (reply.body.Decoded? && !(200 <= reply.code <= 299))))
  }

  /** The body is an object whose data is a list that begins with an object with a number. */
  ghost predicate HasNumber(body: Json) {
    && body.JObject? && "data" in body.fields
    && body.fields["data"].JArray? && body.fields["data"].items != []
    && body.fields["data"].items[0].JObject? && "taxi_phone_number" in body.fields["data"].items[0].fields
  }

  ghost function NumberOf(body: Json): Json
    requires HasNumber(body)
  {
    body.fields["data"].items[0].fields["taxi_phone_number"]
  }

  ghost predicate OccursAt(part: string, text: string, i: nat) {
    i <= |text| && part <= text[i..]
  }

  /** One text occurs in another. */
  ghost predicate Occurs(part: string, text: string) {
    exists i: nat :: OccursAt(part, text, i)
  }

  /** There is no number to look for: no data, or data that begin with something without the name. */
  ghost predicate HasNoNumber(body: Json) {
    if !body.JObject? || "data" !in body.fields then true
    else match body.fields["data"]
      case JString(_) => true
      case JObject(fields) => fields == map[]
      case JArray(items) =>
        || items == []
        || (items[0].JObject? && "taxi_phone_number" !in items[0].fields)
        || (items[0].JArray? && JString("taxi_phone_number") !in items[0].items)
        || (items[0].JString? && !Occurs("taxi_phone_number", items[0].s))
      case _ => false
  }

  /** A success whose body has a number that the column takes, or none. */
  ghost predicate Succeeds(column: Json -> Option<string>, reply: Reply) {
    && reply.Answered? && 200 <= reply.code <= 299 && reply.body.Decoded?
    && var body := reply.body.json;
    && (HasNoNumber(body) || (HasNumber(body) && column(NumberOf(body)).Some?))
  }

  lemma {:induction false} ContainsOccurs(s: string, part: string)
    ensures Contains(s, part) <==> Occurs(part, s)
  {
    if part <= s {
      assert s[0..] == s && OccursAt(part, s, 0);
    } else if s == "" {
      assert forall i: nat :: i <= |s| ==> s[i..] == s;
    } else {
      ContainsOccurs(s[1..], part);
      if Contains(s[1..], part) {
        var i: nat :| OccursAt(part, s[1..], i);
        assert s[1..][i..] == s[i + 1..] && OccursAt(part, s, i + 1);
      }
      if i: nat :| OccursAt(part, s, i) {
        assert i > 0 by {
          assert s[0..] == s;
        }
        assert s[1..][i - 1..] == s[i..] && OccursAt(part, s[1..], i - 1);
      }
    }
  }

  lemma {:induction false} NumbersAreRead(column: Json -> Option<string>, body: Json)
    ensures PhoneIn(column, body) == Absent <==> HasNoNumber(body)
    ensures HasNumber(body) && column(NumberOf(body)).Some? ==>
              PhoneIn(column, body) == Phone(column(NumberOf(body)).value)
    ensures PhoneIn(column, body).Phone? ==> HasNumber(body) && column(NumberOf(body)).Some?
  {
    if body.JObject? && "data" in body.fields && body.fields["data"].JArray? && body.fields["data"].items != []
       && body.fields["data"].items[0].JString? {
      ContainsOccurs(body.fields["data"].items[0].s, "taxi_phone_number");
    }
  }

  /** A reply fails, succeeds, or kills the job. */
  lemma {:induction false} RepliesAreOfThreeKinds(column: Json -> Option<string>, reply: Reply)
    ensures KillsJob(column, reply) <==> !Fails(reply) && !Succeeds(column, reply)
    ensures !(Fails(reply) && Succeeds(column, reply))
  {
    if reply.Answered? && reply.body.Decoded? {
      NumbersAreRead(column, reply.body.json);
    }
  }

  /** What the log says about the end of a request. */
  ghost function SendReason(late: bool, internal: bool, fails: bool): Reason {
    if late then TooLate else if internal then Handoff else if fails then OperatorFailed else NoReason
  }

  /**
   The request to the operator fails a received hail, and frees its taxi, if and
   only if it comes too late or an operator that is no internal one fails it; it is
   handed over if and only if it is in time and the operator internal; the operator
   has it if and only if its reply is a success that can be read. The number is then
   the one given, if any. Nothing else changes but the timer of what is reached.
   */
  lemma {:induction false} SendsEndExactly(cfg: Config, s: State, k: nat, around: Surroundings)
    requires Keys(s) && k < |s.jobs| && s.jobs[k].Send? && s.hails[s.jobs[k].hail].status == Received
    ensures
      var h, s' := s.jobs[k].hail, Step(cfg, s, RunJob(k, around));
      var row, reply := s.hails[h], around.reply;
      var late, internal := around.now - row.addedAt > cfg.sendMaxDelay as real, row.operateur in cfg.internalOperators;
      && h < |s'.hails| && s'.hails == s.hails[h := s'.hails[h]]
      && var row' := s'.hails[h];
      && (row'.status == Failure <==> late || (!internal && Fails(reply)))
      && (row'.status == ReceivedByTaxi <==> !late && internal)
      && (row'.status == ReceivedByOperator <==> !late && !internal && Succeeds(cfg.column, reply))
      && (row'.status == Received <==> !late && !internal && !Fails(reply) && !Succeeds(cfg.column, reply))
      && row' == row.(status := row'.status, phone := row'.phone, log := row'.log)
      && row'.phone == (if row'.status == ReceivedByOperator && HasNumber(reply.body.json)
                        then cfg.column(NumberOf(reply.body.json)).value else row.phone)
      && row'.log == (if row'.status == Received then row.log
                      else row.log + [Entry(Some(Received), row'.status, None,
                                            SendReason(late, internal, Fails(reply)), "")])
      && s'.taxis == (if row'.status == Failure
                      then s.taxis[row.taxi := s.taxis[row.taxi].(status := Free)] else s.taxis)
      && s'.jobs == Without(s.jobs, k)
                    + (if row'.status == ReceivedByOperator then [Timer(h, ReceivedByOperator, Failure, Free)]
                       else if row'.status == ReceivedByTaxi then [Timer(h, ReceivedByTaxi, TimeoutTaxi, Occupied)]
                       else [])
  {
    var h := s.jobs[k].hail;
    var row, reply := s.hails[h], around.reply;
    RepliesAreOfThreeKinds(cfg.column, reply);
    if reply.Answered? && reply.body.Decoded? {
      NumbersAreRead(cfg.column, reply.body.json);
    }
    assert s.hails[h := row] == s.hails && s.taxis[row.taxi := s.taxis[row.taxi]] == s.taxis;
    assert Without(s.jobs, k) + [] == Without(s.jobs, k);
  }

  /** A request for a hail that has left received does nothing. */
  lemma {:induction false} LateSendsAreInert(cfg: Config, s: State, k: nat, around: Surroundings)
    requires Keys(s) && k < |s.jobs| && s.jobs[k].Send? && s.hails[s.jobs[k].hail].status != Received
    ensures Step(cfg, s, RunJob(k, around)) == s.(jobs := Without(s.jobs, k))
  {
  }

  // ------------------------------------------------- timers

  /** What nobody answers ends like this: where the hail was, where it goes, and what its taxi is then. */
  const UNANSWERED_ENDS :=
    {(ReceivedByOperator, Failure, Free), (ReceivedByTaxi, TimeoutTaxi, Occupied),
     (AcceptedByTaxi, TimeoutCustomer, Free), (AcceptedByCustomer, TimeoutAcceptedByCustomer, Occupied),
     (CustomerOnBoard, TimeoutTaxi, Off)}

  lemma {:induction false} TimeoutsAreByStatus(initial: HailStatus, target: HailStatus, taxi: TaxiStatus)
    ensures TimeoutFor(initial) == Some(TimeoutSpec(target, taxi)) <==> (initial, target, taxi) in UNANSWERED_ENDS
  {
  }

  /** A timer moves its hail exactly when the hail is where it was, to one of five ends; a reassignment may follow. */
  lemma {:induction false} TimersEndExactly(cfg: Config, s: State, k: nat, around: Surroundings)
    requires Inv(cfg, s) && k < |s.jobs| && s.jobs[k].Timer?
    ensures
      var job, s' := s.jobs[k], Step(cfg, s, RunJob(k, around));
      var row := s.hails[job.hail];
      && (job.initial, job.target, job.taxi) in UNANSWERED_ENDS
      && (row.status != job.initial ==> s' == s.(jobs := Without(s.jobs, k)))
      && (row.status == job.initial ==>
            s' == State(s.hails[job.hail := row.(status := job.target,
                                                 log := row.log + [Entry(Some(row.status), job.target, None, TimedOut,
                                                                         "")])],
                        s.taxis[row.taxi := s.taxis[row.taxi].(status := job.taxi)],
                        Without(s.jobs, k) + if job.initial == ReceivedByTaxi then [Reassign(job.hail)] else []))
  {
    assert JobFits(s, s.jobs[k]);
    TimeoutsAreByStatus(s.jobs[k].initial, s.jobs[k].target, s.jobs[k].taxi);
    assert Without(s.jobs, k) + [] == Without(s.jobs, k);
  }

  // ------------------------------------------------- creation, and changes of a taxi

  /** The taxi has a hail that is not over. */
  ghost predicate Busy(s: State, t: TaxiId) {
    exists i | 0 <= i < |s.hails| :: s.hails[i].taxi == t && !Terminal(s.hails[i].status)
  }

  /** The first check that a request for a taxi does not pass. */
  ghost predicate NotCreatedFor(cfg: Config, s: State, r: CreateRequest, e: CreateError) {
    var allowed := Moteur in r.moteur.roles || Admin in r.moteur.roles;
    var known := allowed && r.taxi in s.taxis && !r.banned;
    var seen := known && r.position.Some? && r.now <= r.position.value as real + cfg.gpsFreshness as real;
    var idle := seen && s.taxis[r.taxi].status == Free && !Busy(s, r.taxi);
    match e
    case NotAuthorized => !allowed
    case UnknownTaxi => allowed && r.taxi !in s.taxis
    case BannedCustomer => allowed && r.taxi in s.taxis && r.banned
    case NotOnline => known && r.position == None
    case NoLongerOnline => known && r.position.Some? && !seen
    case NotFree => seen && !idle
    case UnknownSession => idle && !r.sessionKnown
    case NoAddress => idle && r.sessionKnown && !r.located
  }

  /** Everything that a request for a taxi must meet. */
  ghost predicate Creatable(cfg: Config, s: State, r: CreateRequest) {
    && (Moteur in r.moteur.roles || Admin in r.moteur.roles) && !r.banned && r.sessionKnown && r.located
    && r.taxi in s.taxis && s.taxis[r.taxi].status == Free && !Busy(s, r.taxi)
    && r.position.Some? && r.now <= r.position.value as real + cfg.gpsFreshness as real
  }

  lemma {:induction false} CreationsAreRefusedExactly(cfg: Config, s: State, r: CreateRequest, e: CreateError)
    ensures CreateCheck(cfg, s, r) == Some(e) <==> NotCreatedFor(cfg, s, r, e)
  {
    assert TaxiEngaged(s, r.taxi) <==> Busy(s, r.taxi);
  }

  /**
   A hail is made if and only if the user may ask, the customer is not banned, the
   session and the address are known, and the taxi is free, without an active hail
   and at a position that is fresh; it is then received, of the taxi's operator and
   without a number, and the taxi is answering.
   */
  lemma {:induction false} CreatesExactly(cfg: Config, s: State, r: CreateRequest)
    requires Keys(s)
    ensures
      var s' := Step(cfg, s, Create(r));
      if Creatable(cfg, s, r) then
        && |s'.hails| == |s.hails| + 1 && s'.hails[..|s.hails|] == s.hails
        && var row := s'.hails[|s.hails|];
        && row.taxi == r.taxi && row.operateur == s.taxis[r.taxi].operateur && row.origin == Requested
        && row.session == Session(r.moteur.id, r.customer, r.session)
        && row.addedAt == r.now && row.status == Received && row.phone == ""
        && row.log == [Entry(None, Received, Some(r.moteur.id), NoReason, "")]
        && s'.taxis == s.taxis[r.taxi := s.taxis[r.taxi].(status := Answering)]
        && s'.jobs == s.jobs + [Send(|s.hails|)]
      else s' == s
  {
    assert TaxiEngaged(s, r.taxi) <==> Busy(s, r.taxi);
  }

  /** Everything that a change of a taxi's status must meet. */
  ghost predicate Changeable(s: State, t: TaxiId, user: User, status: TaxiStatus, recent: bool) {
    && t in s.taxis && s.taxis[t].operateur == user.id && !Busy(s, t)
    && (status == Occupied || status == Off || (status == Free && recent))
  }

  /**
   A taxi is changed if and only if its own operator asks, it has no active hail,
   and the status is occupied, off, or free with a recent position.
   */
  lemma {:induction false} TaxisChangeExactly(cfg: Config, s: State, t: TaxiId, user: User, status: TaxiStatus,
                                              recent: bool)
    requires Keys(s)
    ensures Step(cfg, s, PutTaxi(t, user, status, recent)) ==
            if Changeable(s, t, user, status, recent)
            then s.(taxis := s.taxis[t := s.taxis[t].(status := status)]) else s
    ensures Step(cfg, s, Suspend(t, user)) ==
            if Changeable(s, t, user, Off, recent)
            then s.(taxis := s.taxis[t := s.taxis[t].(status := Off)]) else s
  {
    assert TaxiEngaged(s, t) <==> Busy(s, t);
  }

  /** Each answer that refuses a change of a taxi has its one reason. */
  lemma {:induction false} ChangesAreRefusedExactly(s: State, t: TaxiId, user: User, status: TaxiStatus, recent: bool)
    ensures
      var check := PutTaxiCheck(s, t, user, status, recent);
      var own, given := t in s.taxis && s.taxis[t].operateur == user.id, status in {Free, Occupied, Off};
      && (check == Some(NotYourTaxi) <==> !own)
      && (check == Some(StatusNotAllowed) <==> own && !given)
      && (check == Some(HasActiveHail) <==> own && given && Busy(s, t))
      && (check == Some(FreshPositionRequired) <==> own && !Busy(s, t) && status == Free && !recent)
      && (check == None <==> Changeable(s, t, user, status, recent))
  {
    assert TaxiEngaged(s, t) <==> Busy(s, t);
  }

  // ------------------------------------------------- the reading of a reassignment

  /** The hails of a session. */
  ghost function HailsOf(hails: seq<HailRow>, session: Session): set<HailId> {
    set i | 0 <= i < |hails| && hails[i].session == session
  }

  lemma {:induction false} SizeIsNumberOfHails(hails: seq<HailRow>, session: Session)
    ensures SessionSize(hails, session) == |HailsOf(hails, session)|
  {
    if hails != [] {
      var n := |hails| - 1;
      SizeIsNumberOfHails(hails[..n], session);
      var before := HailsOf(hails[..n], session);
      assert HailsOf(hails, session) == if hails[n].session == session then before + {n} else before;
    }
  }

  /** The session has had this taxi. */
  ghost predicate AlreadyAsked(s: State, session: Session, t: TaxiId) {
    exists i | 0 <= i < |s.hails| :: s.hails[i].session == session && s.hails[i].taxi == t
  }

  /** The taxi could be offered the ride. */
  ghost predicate Offerable(s: State, session: Session, t: TaxiId) {
    t in s.taxis && s.taxis[t].status == Free && !AlreadyAsked(s, session, t)
  }

  /** The taxi is free and is none of these. */
  ghost predicate FreeBeside(s: State, contacted: set<TaxiId>, t: TaxiId) {
    t in s.taxis && s.taxis[t].status == Free && t !in contacted
  }

  lemma {:induction false} FirstFreeIsChosen(s: State, nearby: seq<TaxiId>, contacted: set<TaxiId>)
    ensures
      match FirstCandidate(s, nearby, contacted)
      case None => forall i | 0 <= i < |nearby| :: !FreeBeside(s, contacted, nearby[i])
      case Some(t) =>
        exists i | 0 <= i < |nearby| :: nearby[i] == t && FreeBeside(s, contacted, t)
          && forall j | 0 <= j < i :: !FreeBeside(s, contacted, nearby[j])
  {
    if nearby != [] {
      FirstFreeIsChosen(s, nearby[1..], contacted);
      var rest := FirstCandidate(s, nearby[1..], contacted);
      if FreeBeside(s, contacted, nearby[0]) {
      } else if rest.Some? {
        var i :| 0 <= i < |nearby[1..]| && nearby[1..][i] == rest.value && FreeBeside(s, contacted, rest.value)
                 && forall j | 0 <= j < i :: !FreeBeside(s, contacted, nearby[1..][j]);
        assert nearby[i + 1] == rest.value;
        assert forall j | 1 <= j < i + 1 :: nearby[j] == nearby[1..][j - 1];
      } else {
        assert forall j | 1 <= j < |nearby| :: nearby[j] == nearby[1..][j - 1];
      }
    }
  }

  lemma {:induction false} FirstIsChosen(s: State, nearby: seq<TaxiId>, session: Session)
    ensures
      match FirstCandidate(s, nearby, Contacted(s, session))
      case None => forall i | 0 <= i < |nearby| :: !Offerable(s, session, nearby[i])
      case Some(t) =>
        exists i | 0 <= i < |nearby| :: nearby[i] == t && Offerable(s, session, t)
          && forall j | 0 <= j < i :: !Offerable(s, session, nearby[j])
  {
    FirstFreeIsChosen(s, nearby, Contacted(s, session));
    forall t
      ensures FreeBeside(s, Contacted(s, session), t) <==> Offerable(s, session, t)
    {
      assert t in Contacted(s, session) <==> AlreadyAsked(s, session, t);
    }
  }

  /**
   A reassignment chooses the first taxi nearby that can be offered the ride, unless
   the source was not refused or left unanswered, another hail of the session is
   active, or the session has as many hails as the limit, in this order.
   */
  lemma {:induction false} ReadingsEndExactly(cfg: Config, s: State, h: HailId, nearby: seq<TaxiId>)
    requires h < |s.hails|
    ensures
      var session, result := s.hails[h].session, ReassignResult(cfg, s, h, nearby);
      var refused := s.hails[h].status == DeclinedByTaxi || s.hails[h].status == TimeoutTaxi;
      var active := exists i | 0 <= i < |s.hails| ::
                      i != h && s.hails[i].session == session && !Terminal(s.hails[i].status);
      var full := |HailsOf(s.hails, session)| >= cfg.candidateLimit;
      && (result == Err(SourceNotReassignable) <==> !refused)
      && (result == Err(ActiveHailExists) <==> refused && active)
      && (result == Err(MaxAttemptsReached) <==> refused && !active && full)
      && (result == Err(NoCandidate) <==>
            refused && !active && !full && forall i | 0 <= i < |nearby| :: !Offerable(s, session, nearby[i]))
      && (result.Ok? ==>
            exists i | 0 <= i < |nearby| :: nearby[i] == result.value && Offerable(s, session, nearby[i])
              && forall j | 0 <= j < i :: !Offerable(s, session, nearby[j]))
  {
    var session := s.hails[h].session;
    SizeIsNumberOfHails(s.hails, session);
    FirstIsChosen(s, nearby, session);
    assert OtherActiveInSession(s, h) <==>
           exists i | 0 <= i < |s.hails| :: i != h && s.hails[i].session == session && !Terminal(s.hails[i].status);
  }

  /**
   The insert of a choice is refused if and only if the taxi has a hail that is not
   over; else a hail is made for the source's customer and session, of the chosen
   taxi and its operator, as of the reading, and the taxi is answering.
   */
  lemma {:induction false} PlacesEndExactly(cfg: Config, s: State, k: nat, around: Surroundings)
    requires Keys(s) && k < |s.jobs| && s.jobs[k].Place?
    ensures
      var job, s', n := s.jobs[k], Step(cfg, s, RunJob(k, around)), |s.hails|;
      if Busy(s, job.choice) then s' == s.(jobs := Without(s.jobs, k))
      else
        && |s'.hails| == n + 1 && s'.hails[..n] == s.hails
        && var row := s'.hails[n];
        && row.taxi == job.choice && row.operateur == s.taxis[job.choice].operateur
        && row.session == s.hails[job.hail].session && row.origin == ReassignedFrom(job.hail)
        && row.addedAt == job.now && row.status == Received && row.phone == ""
        && row.log == [Entry(None, Received, None, ReassignedAfter(s.hails[job.hail].status), "")]
        && s'.taxis == s.taxis[job.choice := s.taxis[job.choice].(status := Answering)]
        && s'.jobs == Without(s.jobs, k) + [Send(n)]
  {
    var job, s0 := s.jobs[k], s.(jobs := Without(s.jobs, k));
    assert TaxiEngaged(s0, job.choice) <==> Busy(s, job.choice);
  }
}
