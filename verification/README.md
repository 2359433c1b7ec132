# Rezo Taxi Core: a verified model

Rezo Taxi Core lets customers' applications hail taxis that belong to many
operators. This project models the parts of it in which mistakes are easy to
make and hard to see, and proves what they promise.

**The dispatch protocol.** A hail is a request to one taxi. It moves through
sixteen statuses by requests of users who hold the right role, by timers, and by
the request to the taxi's operator; the taxi's own status moves with it. When a
driver refuses or does not answer, the ride is offered to the next taxi of the
same search. `HailTypes` holds the tables, `HailMachine` one hail and one taxi,
`Dispatch` the whole service as a state machine: committed rows, pending
background jobs, and one function for every request or job that commits.
`DispatchInvariant` says what every step keeps, `DispatchHistory` what follows
for whole runs, `DispatchProgress` that no hail is stuck and that background
jobs end, with a bound. A reassignment is two steps: it reads the session, whose
hails it locks, and the taxis nearby, which it does not; what it has chosen is
inserted later, whatever other requests have committed by then, unless the
unique index on active hails refuses. `DispatchPlacement` says exactly what that
does to the hail it inserts. Three modules take a step apart further:
`SplitReading` the reading of a reassignment into its queries, `SplitSend` the
request to the operator into its unlocked read and its later write, and
`SplitFollowUp` a request on a hail into its commit and the choice of its timer
or reassignment. `DispatchScenario` holds what their runs share. `DispatchService`
is the same service written with objects that change in place; each of its
methods is proved to do the corresponding step. `DispatchOutcomes` tells each step
by its effect, without the functions that compute it: who may move a hail, which
replies fail one, to whom a hail belongs, and the one reason for each refusal.

**Positions and the two searches.** `PositionIndex` models the hash and the four
sorted sets that position reports write and that a cleaner made of four separate
commands shortens; `PositionReports` says what they hold in terms of the reports
alone. `TaxiSearch` and `SearchPipelines` model the public search
and the search for a reassignment, which read that index and choose among
several descriptions of one taxi in different orders; `SearchOutcomes` says which
row each offer is. `SearchConfig` holds the settings, and `SearchAndCreate` connects what a search shows with what the
dispatch protocol accepts.

**The backup pull.** `BackupArchives` and `BackupServer` model the inventory and
the program on the backup server, `BackupPull` the program on the operator's
machine, which reads everything from one stream in pieces of any size, and
`BackupRoundTrip` what a pull guarantees. `BackupChecks` writes out what both sides
accept and the one reason for each way to fail. The hash is an arbitrary function of
the bytes.

**Statistics and metrics.** `ActivityStats` and `ActivityConservation` model the
counters of active taxis and how they add up, `ActivityOutcomes` which entries a
run logs; `Metrics`, `LabelEscape`,
`Numerals` and `MetricsReader` the HTTP metrics, the text in which they are
published (the Prometheus text-based exposition format, its section on comments,
help text and type information), and a reader that gets them back. `Counters`
and `OrderedDict` are the dictionaries both use: insertion order matters to what
is printed and to which description wins.

Some promises turned out not to hold of the code as it is. Each is stated with
the exact condition under which it does hold, and with a run that breaks it:

- *No hail is ever stuck* holds of a step exactly unless the request to an
  operator, made in time, comes to a reply that raises: whatever its code, one
  that raises anything but the decoder's own error while it is decoded or copied
  to the log; and a success whose body cannot be read, or whose number the text
  column refuses. Which texts and which values these are is an input
  (`DispatchProgress.StuckExactlyWhenUnreadable`,
  `DispatchProgress.UnhandledReplyStrandsAHail`,
  `DispatchProgress.UnreadableReplyStrandsAHail`,
  `DispatchProgress.RefusedNumberStrandsAHail`).
- *A taxi that a reassignment has chosen can be hailed* fails exactly when a hail
  committed since the reading holds the taxi; the index then refuses the insert,
  and the chain of hails has ended for ever
  (`DispatchPlacement.IndexRefusesExactlyWhenTaken`,
  `DispatchPlacement.RefusedInsertEndsTheChain`,
  `DispatchPlacement.TakenTaxiEndsTheChain`).
- *A reassignment hails a taxi that is free, leaves its session one active hail,
  asks no taxi twice and keeps the limit* holds of an inserted hail exactly unless
  the taxi was last given another status than free since the reading, or the
  customer asked for another hail, for that taxi, or for too many hails in the
  session since then (`DispatchPlacement.PlacedHailExactly`; in this order
  `DispatchPlacement.OffIsOverwritten`,
  `DispatchPlacement.SessionGetsTwoActiveHails`,
  `DispatchPlacement.SessionAsksATaxiTwice`,
  `DispatchPlacement.SessionExceedsTheLimit`). With the queries taken apart, each
  part counts from the query that looked for it
  (`SplitReading.PlacedAfterReadingExactly`).
- *A driver who refused is never asked again by a reassignment of the session*
  holds exactly when none that is under way has chosen the taxi already
  (`DispatchPlacement.RefusalExcludesExactly`,
  `DispatchPlacement.RefusedDriverIsAskedAgain`).
- *A hail is the source of one reassigned hail at most* is part of an invariant
  that holds exactly as long as no request on a hail, when it chooses what
  follows, finds it refused with a reassignment already pending or used; two
  requests that commit before the first has chosen both call it
  (`SplitFollowUp.InvariantHoldsExactlyWhenFirst`,
  `SplitFollowUp.ReassignmentIsCalledTwice`, `SplitFollowUp.SourceIsUsedTwice`).
- *A hail that is over stays over* holds of the operator's write-back exactly
  when the hail it read as received is still received, or when nothing is written
  (`SplitSend.HistorySurvivesExactlyWhenUndisturbed`,
  `SplitSend.LateReplyRevivesADeclinedHail`).
- *An active hail fixes the status of its taxi* survives that write-back exactly
  when the hail is still received, when nothing is written, or when the request
  failed and no other hail has the taxi (`SplitSend.CouplingSurvivesExactly`,
  `SplitSend.LateFailureFreesAnEngagedTaxi`).
- *A taxi's timestamp is the latest of its operators'* holds throughout a run
  exactly when no report is written after a later one of another operator
  (`PositionIndex.LatestExactlyInOrder`, `PositionIndex.LateWriteLosesATaxi`).
- *A second pull transfers nothing* holds exactly when the second inventory,
  which announces nothing any more, is within the limit of its size and every
  archive of the server is among the newest 64 on the operator's machine
  (`BackupRoundTrip.SecondPull`,
  `BackupRoundTrip.OldArchiveIsRefusedTheSecondTime`,
  `BackupRoundTrip.FullInventoryIsRefusedTheSecondTime`).
- *The values of an operator in the towns add up to its value* holds exactly
  when none of its descriptions is busy: the one counter counts all
  descriptions, the others only the free ones
  (`ActivityConservation.OperatorAddsUpExactly`,
  `ActivityConservation.BusyTaxiIsInNoTown`).
- *The count of durations counts them* holds of a key exactly when the duration of
  each of its responses is known: the text gives the number of responses
  (`MetricsReader.DurationsAreCountedExactly`,
  `MetricsReader.UntimedResponseIsCounted`).

Some choices hold throughout. A request on a hail and a timer lock the hail and
the taxi's description, a creation and a change of a taxi lock the description,
before they decide; each of them is one step, and so, outside `SplitFollowUp`, is
a commit together with the jobs it schedules. The reassignment after a refusal or
an unanswered request is a job of its own, so that anything may come in between.
Outside `SplitReading` its queries are one reading of the committed rows; its
insert and commit are one step, and while its choice is pending another
reassignment of the same session waits, since it locks the same hails. New hails
of the session, and the taxis, are not locked.
Jobs run in any order and at any time, which covers every countdown and every
delay. Clocks, operators' replies, distances and the towns allowed around a
customer are inputs. In the dispatch protocol a taxi has one description and a
description one taxi. All lemmas switch automatic induction off, so that each
proof is the one that is written.

## Model

| member | source | states |
|---|---|---|
| HailMachine.EdgesClimb | APITaxi2/services/hail_state_machine.py:11-117 | Every move of the three tables leads strictly up one rank order; none starts at a status that is over or leads to received or sent_to_operator; timeout_taxi and declined_by_taxi are reached only from received_by_taxi or customer_on_board. |
| HailMachine.FaithfulLogIsShort | APITaxi2/processes/hails.py:14-29 | A hail's log has at most seven entries, enters no status twice, and has an ending status only at its end. |
| HailMachine.ChangedIsFaithful | APITaxi2/processes/hails.py:4-29 | One more lawful entry with a new event id keeps the log a gapless history. |
| HailMachine.TransitionStep | APITaxi2/services/hail_state_machine.py:145-203 | A request that succeeds makes one lawful step of a user with the role, keeps the log faithful and leaves a taxi status that fits; or it changes nothing, and the hail has been in that status before. |
| HailMachine.VisitedStatusIsInert | APITaxi2/services/hail_state_machine.py:159-181 | A status once entered is never entered again, by whatever user, phone number or event id. |
| HailMachine.ProcessedEvent | APITaxi2/services/hail_state_machine.py:124-131 | Finds an entry with the event id if there is one, and none only if no entry has it. |
| HailMachine.Hail.ChangeStatus | APITaxi2/processes/hails.py:4-29 | The status and the log change together, and the entry starts at the status that is left. |
| HailMachine.ApplyTransition | APITaxi2/services/hail_state_machine.py:145-203 | The statements on the loaded objects do what the transition function says, in every error case and every success. |
| Dispatch.FirstCandidate | APITaxi2/services/hail_reassignment.py:279-291 | The taxi chosen is nearby, free and not contacted; none is chosen only when every free taxi nearby has been contacted. |
| DispatchInvariant.CommitKeepsAgreement | APITaxi2/services/hail_state_machine.py:134-203 | Moving an active hail one lawful step keeps logs, the one active hail per taxi and the coupling of the two statuses. |
| DispatchInvariant.InsertKeepsAgreement | APITaxi2/views/hails.py:811-843 | Inserting a received hail on a taxi that no active hail holds keeps them too. |
| DispatchInvariant.PutTaxiKeepsInv | APITaxi2/views/taxis.py:347-370 | A change of a taxi's status by its operator cannot break the coupling. |
| DispatchInvariant.PutHailKeepsInv | APITaxi2/views/hails.py:345-478 | A request on a hail keeps the whole invariant, with the timer or reassignment it schedules. |
| DispatchInvariant.SendKeepsInv | APITaxi2/tasks/operators.py:137-382 | The request to the operator keeps the invariant: expired, handed over, accepted, unreadable or failed. |
| DispatchInvariant.TimerStepKeepsInv | APITaxi2/tasks/operators.py:76-133 | A timer keeps the invariant, stale or not. |
| DispatchInvariant.ReassignKeepsInv | APITaxi2/services/hail_reassignment.py:251-294 | The reading of a reassignment keeps the invariant: its choice is a taxi that no hail of the session used, in a session with a place left and no other choice pending. |
| DispatchInvariant.PlaceKeepsInv | APITaxi2/services/hail_reassignment.py:181-220 | The insert of a choice keeps the invariant whatever was committed since the reading: the index, the coupling, one use of the source, and a session whose doubles and excess are the customer's own requests. |
| DispatchInvariant.StepKeepsInv | APITaxi2/views/taxis.py:347-370 | Create, request on a hail, change of a taxi, suspension and every job keep the invariant. |
| DispatchInvariant.ReachableInv | APITaxi2/views/hails.py:721-752 | The invariant holds after every run. |
| DispatchHistory.HailsAndTaxisAgree | APITaxi2/views/taxis.py:347-370 | After any run a taxi has one active hail at most, that hail fixes the taxi's status, a free or off taxi has none, and an answering or oncoming taxi has exactly one. |
| DispatchHistory.HistoriesAreShort | APITaxi2/processes/hails.py:14-29 | After any run every log is a gapless history of at most seven entries, and sent_to_operator never occurs. |
| DispatchHistory.HailAfterRun | APITaxi2/processes/hails.py:14-29 | A hail after a run is the hail before it with a longer log. |
| DispatchHistory.AcceptedRequestsAreIdempotent | APITaxi2/services/hail_state_machine.py:159-181 | Once a request was accepted, asking for the same status again changes nothing at all, after any later steps, with or without an event id. |
| DispatchHistory.LeftForEver | APITaxi2/services/hail_state_machine.py:11-45 | A status that a hail has left is never its status again. |
| DispatchHistory.LateTimersAreInert | APITaxi2/tasks/operators.py:108-109 | A timer for a status already left does nothing, however late and however often it runs. |
| DispatchHistory.RefusalFreesAndExcludes | APITaxi2/views/hails.py:476-477 | A refusal frees the taxi, leaves a reassignment pending, and, unless a choice of that taxi is pending in the session, no later reassignment of the session ever picks it. |
| DispatchHistory.ChainAsksEachTaxiOnce | APITaxi2/services/hail_reassignment.py:264-301 | After any run, reassignments interleaved with anything, a session that the customer opened once has pairwise distinct taxis and at most as many hails as the candidate limit. |
| DispatchHistory.SessionStartsWithRequest | APITaxi2/services/hail_reassignment.py:181-220 | Before every reassigned hail of a session there is one that a customer asked for. |
| DispatchHistory.SourcesAreUsedOnce | APITaxi2/tasks/operators.py:132-133 | After any run a hail is the source of one reassigned hail at most, with nothing pending once it is used, and no hail that a driver ever accepted is a source, though a ride also ends in timeout_taxi. |
| DispatchHistory.EveryUserEntryWasAllowed | APITaxi2/services/hail_state_machine.py:171-192 | Every entry that names a user was written by a request of that user with the role the move needs, or admin. |
| DispatchOutcomes.HailsBelongToTheirTaxis | APITaxi2/services/hail_reassignment.py:181-220 | After any run every hail, asked for or reassigned, is of the operator of its taxi, and a taxi's operator never changes. |
| DispatchOutcomes.RequestsMoveHailsExactly | APITaxi2/views/hails.py:345-478 | A request on a hail changes anything if and only if its user is the hail's operator, its application or an admin, holds the role of the move, gives or has given the number that an acceptance needs, repeats no event and sends no forbidden field; it then leaves exactly this status, number, entry, taxi status and job. |
| DispatchOutcomes.RequestsAreRefusedExactly | APITaxi2/views/hails.py:345-478 | Each error answer to a request on a hail is given for its one reason, in the order of the checks. |
| DispatchOutcomes.MovesAreRefusedExactly | APITaxi2/services/hail_state_machine.py:145-203 | A move is refused for a repeated event, a hail that is over, no such move, a missing role or a missing number, each exactly when it is the first of these. |
| DispatchOutcomes.RolesAreByTarget | APITaxi2/services/hail_state_machine.py:11-75 | Which moves are an operator's and which a customer's application's, and that there are no others. |
| DispatchOutcomes.EveryUserEntryIsOfAParty | APITaxi2/views/hails.py:357-360 | After any run every entry of a user is the hail's operator's or application's, or comes from an administrator's request. |
| DispatchOutcomes.SendsEndExactly | APITaxi2/tasks/operators.py:137-382 | The request to the operator fails a received hail and frees its taxi if and only if it is too late or an external operator's reply fails; it hands the hail over if and only if it is in time and the operator internal; the operator has it if and only if the reply is a success that can be read; with the number of the reply, the entry and the timer that follow. |
| DispatchOutcomes.RepliesAreOfThreeKinds | APITaxi2/tasks/operators.py:271-337 | A reply fails if nobody answers, the body is no JSON or the code is not between 200 and 299; it succeeds if the code is and the body can be read; any other reply raises. |
| DispatchOutcomes.LateSendsAreInert | APITaxi2/tasks/operators.py:180-200 | A request to the operator for a hail that has left received does nothing. |
| DispatchOutcomes.TimersEndExactly | APITaxi2/tasks/operators.py:76-133 | A timer ends its hail if and only if the hail is where it was, in one of five ways, each with its taxi status, and only an unanswered driver brings a reassignment. |
| DispatchOutcomes.TimeoutsAreByStatus | APITaxi2/services/hail_state_machine.py:76-117 | The five statuses that time out, with the end and the taxi status of each. |
| DispatchOutcomes.CreatesExactly | APITaxi2/views/hails.py:649-843 | A hail is made if and only if the user may ask, the customer is not banned, session and address are known, and the taxi is free, without an active hail and at a fresh position; it is then this row, with this taxi status and this job. |
| DispatchOutcomes.CreationsAreRefusedExactly | APITaxi2/views/hails.py:649-810 | Each refusal to make a hail is for the first check that fails: an occupied or unreachable taxi, a stale position and the others. |
| DispatchOutcomes.TaxisChangeExactly | APITaxi2/views/taxis.py:313-379 | A taxi's status changes if and only if its own operator asks, it has no active hail, and the status is occupied, off, or free with a recent position. |
| DispatchOutcomes.ChangesAreRefusedExactly | APITaxi2/views/taxis.py:313-370 | Each refusal to change a taxi has its one reason. |
| DispatchOutcomes.ReadingsEndExactly | APITaxi2/services/hail_reassignment.py:251-294 | A reassignment chooses the first taxi nearby that is free and new to the session, unless the source was not refused, another hail is active, the session has as many hails as the limit, or there is no such taxi, in this order. |
| DispatchOutcomes.PlacesEndExactly | APITaxi2/services/hail_reassignment.py:181-220 | The insert is refused if and only if the taxi has a hail that is not over; else it makes a hail of the source's customer and session, of the chosen taxi and its operator, as of the reading. |
| DispatchPlacement.ReadingChooses | APITaxi2/services/hail_reassignment.py:259-294 | At its reading a reassignment chooses a free taxi without an active hail that no hail of the session used, in a session that is over and below the limit, and changes nothing but the queue. |
| DispatchPlacement.IndexRefusesExactlyWhenTaken | APITaxi2/services/hail_reassignment.py:282-295 | After any steps since the taxi was chosen, the insert is refused if and only if a hail made since then holds the taxi, and a refusal changes no hail and no taxi. |
| DispatchPlacement.PlacedHailExactly | APITaxi2/services/hail_reassignment.py:264-295 | An inserted hail joins another active hail of its session, repeats a taxi of it, or exceeds the limit if and only if the customer asked for a hail still active, for that taxi, or for that many hails in the session since the reading; and its taxi is still free if and only if the last status given to it since, if any, is free. |
| DispatchPlacement.UndisturbedPlacement | APITaxi2/services/hail_reassignment.py:251-301 | When nothing of the session and nothing on the taxi was committed meanwhile, the inserted hail is the only active one of its session, on a taxi no other hail of it used, within the limit. |
| DispatchPlacement.SpentForEver | APITaxi2/services/hail_reassignment.py:259-262 | A hail that is over with no reassignment pending never has one again, and no further hail is ever made from it. |
| DispatchPlacement.RefusedInsertEndsTheChain | APITaxi2/services/hail_reassignment.py:181-220 | Once the index has refused an insert, no later request or job ever makes a hail from the source, which stays as it is. |
| DispatchPlacement.RefusalExcludesExactly | APITaxi2/views/hails.py:464-477 | After a driver's refusal no later run lets a reassignment of the session pick the taxi again if and only if no pending choice had picked it already. |
| DispatchPlacement.ChoiceIsReached | APITaxi2/tasks/operators.py:108-133 | The run from an empty service in which the first driver does not answer and a second taxi is chosen, where the next three begin. |
| DispatchPlacement.TakenTaxiEndsTheChain | APITaxi2/views/hails.py:712-752 | Another customer is given the chosen taxi first: the insert is refused, and the first customer has neither a hail nor a reassignment pending. |
| DispatchPlacement.SessionGetsTwoActiveHails | APITaxi2/services/hail_reassignment.py:264-268 | The customer hails a third taxi meanwhile: the session ends with two active hails. |
| DispatchPlacement.SessionAsksATaxiTwice | APITaxi2/services/hail_reassignment.py:53-57 | The customer hails the chosen taxi meanwhile and declines: the session asks that taxi again. |
| DispatchPlacement.StatusIsLastGiven | APITaxi2/services/hail_state_machine.py:134-203 | After any run a taxi has the status that a request or a job last gave it, or the one it had. |
| DispatchPlacement.SessionExceedsTheLimit | APITaxi2/services/hail_reassignment.py:270-280 | With a limit of two, the run with a third taxi leaves three hails in the session. |
| DispatchPlacement.RefusedDriverIsAskedAgain | APITaxi2/views/hails.py:464-477 | The customer hails the chosen taxi meanwhile, its driver refuses, and the pending choice asks that driver again. |
| DispatchPlacement.OffIsOverwritten | APITaxi2/services/hail_reassignment.py:212 | The operator takes the chosen taxi off the road meanwhile: it is hailed all the same and its off is overwritten by answering. |
| SplitReading.EveryReadingKeepsInv | APITaxi2/services/hail_reassignment.py:256-292 | However the queries of any number of reassignments fall between other steps, each seeing what is committed when it runs, the invariant of the protocol holds. |
| SplitReading.QueriesAreTheReading | APITaxi2/services/hail_reassignment.py:264-292 | With nothing in between, the queries one after the other are the reading in one step. |
| SplitReading.FirstQueriesExactly | APITaxi2/services/hail_reassignment.py:256-275 | The first query ends the reassignment unless its source was refused and no other hail of the session is active, the second unless the session has fewer hails than the limit. |
| SplitReading.LastQueriesExactly | APITaxi2/services/hail_reassignment.py:276-294 | The third query keeps the taxis that the session has had; the last one chooses the first taxi nearby that is free and none of these, or ends. |
| SplitReading.ReadingsWaitExactly | APITaxi2/services/hail_reassignment.py:167-172 | A reassignment begins to read unless one of the same session has chosen or is reading. |
| SplitReading.WholeRunsRemain | APITaxi2/services/hail_reassignment.py:251-294 | Every run of the protocol with readings in one step is a run of the service whose readings are taken apart. |
| SplitReading.ChoiceIsFreshExactly | APITaxi2/services/hail_reassignment.py:264-292 | What is chosen is what one reading at that moment could have chosen if and only if the customer has not asked for a hail still active, for that taxi, or for as many hails as the limit since the query that looked for it. |
| SplitReading.PlacedAfterReadingExactly | APITaxi2/services/hail_reassignment.py:251-301 | After queries and insert taken apart, the hail joins an active one, repeats a taxi or exceeds the limit if and only if the customer asked for it since the first query, since the third, or often enough. |
| SplitFollowUp.HalvesAreTheRequest | APITaxi2/views/hails.py:448-477 | With nothing in between, the commit and the choice of what follows are the request in one step. |
| SplitFollowUp.CommitsMoveExactly | APITaxi2/views/hails.py:345-463 | The commit alone moves hail and taxi exactly when the request may, leaves one choice due, and changes nothing otherwise. |
| SplitFollowUp.FollowsExactly | APITaxi2/views/hails.py:464-477 | What is chosen later goes by the status that the hail has then. |
| SplitFollowUp.WholeRunsRemain | APITaxi2/views/hails.py:464-477 | Every run of the protocol with requests in one step is a run of the service whose requests are taken apart. |
| SplitFollowUp.FollowStepKeepsInvExactly | APITaxi2/views/hails.py:464-477 | A step keeps the invariant if and only if it does not call a reassignment of a hail for which one is pending or has made a hail. |
| SplitFollowUp.InvariantHoldsExactlyWhenFirst | APITaxi2/views/hails.py:448-477 | Over any interleaving of commits and choices the invariant holds throughout if and only if every called reassignment is the first of its hail that is pending or was used. |
| SplitFollowUp.FirstSourcesAreUsedOnce | APITaxi2/views/hails.py:476-477 | In such a run from an empty service no hail is the source of two. |
| SplitFollowUp.EveryInterleavingAgrees | APITaxi2/views/hails.py:448-477 | However often reassignments are called, logs stay lawful, a taxi has one active hail at most and that hail fixes its status. |
| SplitFollowUp.ReassignmentIsCalledTwice | APITaxi2/views/hails.py:464-477 | The run in which received_by_taxi and declined_by_taxi commit before the first has chosen, and both call the reassignment. |
| SplitFollowUp.SourceIsUsedTwice | APITaxi2/views/hails.py:476-477 | Both reassignments make a hail, the second after the customer declined the first one's. |
| DispatchProgress.StuckExactlyWhenUnreadable | APITaxi2/tasks/operators.py:269-376 | A step leaves some active hail without a job that moves it if and only if a request to an operator, in time, comes to a reply that raises: uncaught while it is sent, decoded or logged, whatever its code, or a success that cannot be read or has a number the column refuses. |
| DispatchProgress.RunKeepsDriven | APITaxi2/views/hails.py:464-477 | While no reply raises, every active hail has a pending send (received) or a pending timer for its present status. |
| DispatchProgress.UnhandledReplyStrandsAHail | APITaxi2/tasks/operators.py:271-307 | A reply that raises something else than the decoder's error leaves a hail received and its taxi answering, with no job left, whatever code it came with. |
| DispatchProgress.UnreadableReplyStrandsAHail | APITaxi2/tasks/operators.py:320-382 | Whatever the column takes, so does a success with a null data field. |
| DispatchProgress.RefusedNumberStrandsAHail | APITaxi_models2/hail.py:81 | And so does a success with a number that the column refuses. |
| DispatchProgress.JobsUseMeasure | APITaxi2/services/hail_reassignment.py:270-301 | Every job that runs lowers a measure of pending jobs and of the places of sessions that are neither taken nor spoken for. |
| DispatchProgress.BackgroundIsBounded | APITaxi2/tasks/operators.py:108-133 | Jobs alone run no more often than that measure says. |
| DispatchProgress.BackgroundEndsEveryHail | APITaxi2/services/hail_state_machine.py:82-117 | From any reachable state, while no reply raises, jobs alone, in any order, stop within five runs for each pending job and four for each place of a session; then every hail is over and no taxi answers or is on its way. |
| DispatchProgress.DrainEmptiesTheQueue | APITaxi2/tasks/operators.py:108-133 | Some job can always run, and running such jobs until none is left does end. |
| SplitSend.EveryInterleavingKeepsIndex | APITaxi2/tasks/operators.py:143-173 | With the request to the operator taken apart, every interleaving keeps at most one active hail per taxi. |
| SplitSend.WrittenBackExactly | APITaxi2/tasks/operators.py:180-382 | Whatever was committed since a request read its hail as received, it writes exactly this: the status and the log that follow from what it read, the number only when the reply has another than was read, free for the taxi only when it fails and the taxi was not free then; and nothing when its reply raises or the index refuses. |
| SplitSend.WholeRunsRemain | APITaxi2/tasks/operators.py:137-382 | Every run of the protocol with the request to the operator in one step is a run of the service whose requests are taken apart. |
| SplitSend.UndisturbedWriteIsAtomic | APITaxi2/tasks/operators.py:372-376 | A write-back to a hail that is still as it was read does what the whole request would do now. |
| SplitSend.UndisturbedServiceIsAtomic | APITaxi2/tasks/operators.py:143-376 | A run with only such write-backs, and any interleaving of all other steps, ends in the state of an atomic run, and the invariant holds. |
| SplitSend.HistorySurvivesExactlyWhenUndisturbed | APITaxi2/tasks/operators.py:372-376 | A write-back leaves finished hails and all histories whole if and only if the hail read as received still is, or nothing is written: the request has no effect or the index refuses it. |
| SplitSend.LateReplyRevivesADeclinedHail | APITaxi2/views/hails.py:345-349 | The run in which a customer declines during the operator's request and the hail is live again, its refusal gone and its taxi free. |
| SplitSend.CouplingSurvivesExactly | APITaxi2/tasks/operators.py:295-302 | A write-back leaves every active hail in agreement with its taxi if and only if the hail is still received, nothing is written, or the request failed and no other hail has the taxi. |
| SplitSend.LateFailureFreesAnEngagedTaxi | APITaxi2/tasks/operators.py:256-267 | The run in which a customer declines, another hails the taxi, the first request fails, and the taxi is free under the other's hail. |
| DispatchService.Service.CreateHail | APITaxi2/views/hails.py:587-843 | Creation on the live objects returns the first error of the checks or inserts the hail, exactly as the protocol's step. |
| DispatchService.Service.FindActiveHail | APITaxi2/views/hails.py:721-752 | The loop over hails finds whether the taxi has an active one. |
| DispatchService.Service.ChangeHail | APITaxi2/views/hails.py:345-478 | The request on a hail leaves the state of the protocol's step, on every error and every success. |
| DispatchService.Service.ChangeTaxi | APITaxi2/views/taxis.py:347-370 | The operator's change of a taxi does the protocol's step. |
| DispatchService.Service.SendRequest | APITaxi2/tasks/operators.py:137-382 | The request to the operator does the protocol's step. |
| DispatchService.Service.HandleTimeout | APITaxi2/tasks/operators.py:76-133 | The timer does the protocol's step. |
| DispatchService.Service.ReassignAfterDriverUnavailable | APITaxi2/services/hail_reassignment.py:251-294 | The reassignment up to its choice returns the protocol's result and leaves the choice pending. |
| DispatchService.Service.CreateReassignmentHail | APITaxi2/services/hail_reassignment.py:181-220 | The insert does the protocol's step, and is refused exactly when an active hail holds the taxi. |
| DispatchService.Service.MustWait | APITaxi2/services/hail_reassignment.py:167-172 | The loop over the queue finds whether another reassignment of the session still holds the locks. |
| DispatchService.Service.Work | APITaxi2/tasks/operators.py:75-137 | Taking any job off the queue and running it does the protocol's step. |
| PositionIndex.IndexAgrees | APITaxi2/tasks/clean.py:23-38 | With reports between the cleaner's commands, each written some time after its clock was read, live timestamps lie within the index and equal the hash; when the cleaner rests both pairs have the same members and a taxi's timestamp is that of an operator that reported it. |
| PositionIndex.HistoryKeepsInv | APITaxi2/views/geotaxi.py:41-90 | Every interleaving of reports and cleaner commands keeps that agreement. |
| PositionIndex.LatestExactlyInOrder | APITaxi2/views/geotaxi.py:41-90 | A taxi's timestamp is the latest of its operators' at every moment of a run if and only if no report is written after a later one of another operator of the taxi. |
| PositionIndex.LateWriteLosesATaxi | APITaxi2/tasks/clean.py:23-38 | The run in which the earlier of two reports is written last and the cleaner drops the taxi while the later report is still fresh. |
| PositionIndex.CleaningIsTransparent | APITaxi2/redis_backend.py:165-193 | At any later instant the fresh members and their positions are those of the same reports without any cleaning. |
| PositionIndex.CleaningKeepsNearest | APITaxi2/redis_backend.py:165-193 | With a limit on the hits, a hit among the nearest that cleaning keeps is still among the nearest. |
| PositionIndex.CleanedSearchFindsAsMuch | APITaxi2/tasks/clean.py:23-31 | With a limit on the hits, no fresh hit is lost to cleaning. |
| PositionIndex.FourCommandsClean | APITaxi2/tasks/clean.py:14-38 | The four commands with nothing in between remove exactly what is expired, from both pairs. |
| PositionIndex.BatchReportsLastPositions | APITaxi2/views/geotaxi.py:95-169 | An accepted batch reports each taxi it names once, with the last position given. |
| PositionReports.LastReportIsStored | APITaxi2/views/geotaxi.py:41-90 | After any reports and cleanings the hash holds exactly what was ever reported, with the position and the whole seconds of the last report of the taxi by that operator; the two indexes hold no other position than that of the last report of the taxi by that operator, and of the taxi by anyone. |
| PositionReports.FoundWhileFresh | APITaxi2/redis_backend.py:146-193 | At any later instant a taxi can be found with an operator if and only if the whole seconds of its last report by that operator and the freshness are not past, and it is found where that report placed it. |
| PositionReports.CleanedExactly | APITaxi2/tasks/clean.py:23-38 | A cleaning takes away exactly the members whose timestamp is not later than the freshness before it began, or that have none; the rest and the hash stay. |
| PositionReports.BatchIsStored | APITaxi2/views/geotaxi.py:138-167 | An accepted batch leaves of each taxi the last position given for it, with the time read for it; the clock is read once for each taxi, in the order in which they were first named. |
| PositionReports.BatchLeavesOthers | APITaxi2/views/geotaxi.py:162-167 | An accepted batch changes nothing of other operators, and nothing of taxis that it does not name. |
| PositionIndex.Redis.UpdatePosition | APITaxi2/views/geotaxi.py:41-90 | The five writes of one report are one step of the index. |
| PositionIndex.Redis.Batch | APITaxi2/views/geotaxi.py:95-169 | A batch is accepted exactly when every taxi is the operator's; each last position is then reported at its own time, and a refused batch changes nothing. |
| PositionIndex.Redis.CleanGeoindexTimestamps | APITaxi2/tasks/clean.py:8-38 | The cleaner run at once leaves the cleaned store. |
| SearchConfig.RadiusWithinMaximum | APITaxi2/rezo_taxi_config.py:31-75 | With validated settings no stored or default radius exceeds the greatest distance searched. |
| SearchOutcomes.SettingsAreValidExactly | APITaxi2/rezo_taxi_config.py:46-75 | The settings are refused because one is not positive, because the default radius does not lie between the least and the greatest, or because more are shown than looked at, in this order, and are valid otherwise. |
| SearchOutcomes.NearestAreGiven | APITaxi2/redis_backend.py:163-177 | A search gets the nearest members, all those within the distance and up to the count. |
| SearchOutcomes.LocationsExactly | APITaxi2/redis_backend.py:163-193 | The search knows a place of a taxi with an operator if and only if that member is among the nearest, with its distance and the date of its timestamp, where zero is no date. |
| TaxiSearch.TaxisLocationsByOperator | APITaxi2/redis_backend.py:146-193 | The loop files every hit of the index under its taxi and operator. |
| TaxiSearch.LocationsAreFiled | APITaxi2/redis_backend.py:179-193 | A location is found exactly where its member was hit, the last hit winning. |
| TaxiSearch.FreshestIsLatest | APITaxi2/views/taxis.py:575-585 | The fold keeps the first of the latest descriptions after the last one without a date, or that one. |
| TaxiSearch.SortByDistance | APITaxi2/views/taxis.py:617-620 | Sorting orders by distance and keeps the offers. |
| TaxiSearch.SortIsStable | APITaxi2/views/taxis.py:617-620 | Sorting leaves the offers at each distance in the order in which they came. |
| SearchPipelines.Search | APITaxi2/views/taxis.py:494-621 | The loop, the fold, the radius filter, the sort and the cut of the public search give the offers shown. |
| SearchPipelines.FindAvailableCandidates | APITaxi2/services/hail_reassignment.py:79-153 | The loop of the reassignment search gives its candidates. |
| SearchPipelines.FoundExactly | APITaxi2/views/taxis.py:571-600 | An offer is found if and only if it is the freshest usable one of its taxi and the customer is within its radius; taxis are distinct and nearest first. |
| SearchOutcomes.FoundRowsExactly | APITaxi2/views/taxis.py:494-600 | An offer is found if and only if it tells a row that is free, idle, allowed, seen by the viewer and freshly reported, that no later row of its taxi replaces and that every earlier one gave way to, and the distance is within the row's radius or, without one, the default. |
| SearchOutcomes.FreshestIsChosen | APITaxi2/views/taxis.py:571-585 | The fold over the offers of a taxi keeps the one chosen row, whatever dates are missing, in both searches. |
| SearchPipelines.SearchIsSound | APITaxi2/views/taxis.py:494-621 | What is shown is distinct, sorted, within the limit, and free, idle, allowed, fresh and in its own radius; a taxi that was cut is no nearer than one that is shown, and only a full page cuts. |
| SearchPipelines.SearchMissesNobody | APITaxi2/views/taxis.py:488-600 | While the index left nothing out, a taxi with a free and fresh description within its radius is found if and only if its freshest one is in reach. |
| SearchPipelines.CandidatesExactly | APITaxi2/services/hail_reassignment.py:110-153 | An offer is a candidate if and only if it is the freshest in reach of its taxi; taxis are distinct and nearest first. |
| SearchOutcomes.CandidateRowsExactly | APITaxi2/services/hail_reassignment.py:110-153 | An offer is a candidate if and only if it tells such a row among those within their radius and of taxis not yet asked. |
| SearchPipelines.FoundTaxisAreCandidates | APITaxi2/services/hail_reassignment.py:110-153 | Every taxi the customer's search finds is a reassignment candidate unless it was excluded, and through the same description when none is undated. |
| SearchPipelines.CandidatesNeedNotBeFound | APITaxi2/views/taxis.py:588-600 | A candidate whose fresher description is out of reach is not found. |
| SearchPipelines.UndatedDescriptionsMayDiffer | APITaxi2/views/taxis.py:575-585 | With an undated description the two searches may choose different ones. |
| SearchAndCreate.ShownTaxiCanBeHailed | APITaxi2/views/hails.py:649-752 | After any reports and cleanings, a taxi shown through its owner's description passes every check on the taxi when hailed in the same state and instant: creation succeeds exactly when the customer's side does. |
| SearchAndCreate.ShownPositionIsInHash | APITaxi2/redis_backend.py:24-42 | The date shown with an offer is the timestamp in the hash that creation reads. |
| SearchAndCreate.NearestCandidateIsChosen | APITaxi2/services/hail_reassignment.py:279-292 | A reassignment in an unchanged state turns to the nearest candidate, and to none only when there is none. |
| BackupArchives.ValidateHeader | scripts/maintenance/pull_backups_to_operator.py:113-145 | The row-by-row check accepts an inventory if and only if it is complete, of legal size, with 1 to 64 rows of distinct dated names, acceptable proofs, and no more than 2 GiB to transfer. |
| BackupArchives.NewestAreFew | scripts/maintenance/pull_backups_to_operator.py:184-192 | The request never has more entries than the server takes. |
| BackupChecks.InventoriesAreRefusedExactly | scripts/maintenance/pull_backups_to_operator.py:113-145 | A pull refuses the inventory, and changes nothing, if and only if it is too long, broken off, not one at all, not of 1 to 64 rows with different names, has a row without the proof of a whole database made when its name says, of 1024 to 536870912 bytes, with 64 hexadecimal digits, or asks for more than 2 GiB. |
| BackupChecks.SuccessfulPullIsProven | scripts/maintenance/pull_backups_to_operator.py:113-145 | After a successful pull every row of the server's reply has such a proof. |
| BackupChecks.ServersRefuseExactly | scripts/maintenance/pull_backups_to_operator.py:36-81 | The server answers if and only if it is asked about 64 archives at most, has 1 to 64, each private, dated and with such a proof of its own size, and what is wanted and the inventory keep the limits; else it sends nothing. |
| BackupChecks.RowsTellWhatIsWanted | scripts/maintenance/pull_backups_to_operator.py:61-63 | Each row of an answer is an archive with its proof, marked exactly when the other side does not have it with this digest and size. |
| BackupChecks.DatesAreInCalendar | scripts/maintenance/pull_backups_to_operator.py:40-45 | A name is accepted if and only if it is a day of the calendar with a time of day. |
| BackupChecks.RowsFailExactly | scripts/maintenance/pull_backups_to_operator.py:148-179 | A row ends a pull for exactly one reason: the archive is already here, the stream is too short, it is no age file, it has another digest, or what is here is not what the row says; else the archive, if it was to come, and its proof are here. |
| BackupChecks.UnfinishedExactly | scripts/maintenance/pull_backups_to_operator.py:239-260 | With a sound inventory and no row that fails, a pull fails if and only if bytes are left or the server failed. |
| BackupChecks.LargeArchivesStopAPull | scripts/maintenance/pull_backups_to_operator.py:184-192 | A pull gives up before it asks when one of the newest archives here is too large. |
| BackupChecks.MagicIsAge | scripts/maintenance/pull_backups_to_operator.py:164-170 | An age file is one that begins with the line of the format's first version. |
| BackupServer.Serve | scripts/maintenance/pull_backups_to_operator.py:36-81 | The server's loops answer with the inventory and the missing archives one after the other, or refuse, exactly when its checks say so. |
| BackupServer.SendArchive | scripts/maintenance/pull_backups_to_operator.py:69-76 | Sending block by block, with blocks of any size, sends the whole file. |
| BackupPull.Destination.ReceiveArchive | scripts/maintenance/pull_backups_to_operator.py:148-179 | Whatever the pieces of the stream, an archive is published with exactly its bytes, or one error is returned and nothing is published. |
| BackupPull.Destination.TakeRows | scripts/maintenance/pull_backups_to_operator.py:224-238 | The loop over the rows leaves the archives, proofs, rest of the stream and counts of the specification, up to the first error. |
| BackupPull.Destination.Pull | scripts/maintenance/pull_backups_to_operator.py:182-260 | One pull leaves and returns what the specification says for whatever the server answers. |
| BackupPull.PrefixSuffices | scripts/maintenance/pull_backups_to_operator.py:164-170 | The first 32 bytes are enough to recognise an age file. |
| BackupRoundTrip.PullIsSafe | scripts/maintenance/pull_backups_to_operator.py:148-179 | Against any server and however the pull ends, existing archives keep their bytes, and every other archive is an age file with the size and digest announced. |
| BackupRoundTrip.SuccessfulPullHoldsAll | scripts/maintenance/pull_backups_to_operator.py:226-238 | After success every listed archive is here with the size and digest of its proof, which is beside it. |
| BackupRoundTrip.SuccessfulPullConserves | scripts/maintenance/pull_backups_to_operator.py:224-240 | After success the archives added are those announced, byte for byte the stream, and the count of bytes is what was announced, sent and added. |
| BackupRoundTrip.HonestPullSucceeds | scripts/maintenance/pull_backups_to_operator.py:182-241 | A pull from an honest server succeeds if and only if the limits are kept and none of its archives is here except unchanged and among the newest 64. |
| BackupRoundTrip.HonestPullDelivers | scripts/maintenance/pull_backups_to_operator.py:148-179 | Then every archive of the server that was missing is here byte for byte. |
| BackupRoundTrip.SecondPull | scripts/maintenance/pull_backups_to_operator.py:183-192 | A second pull succeeds if and only if the second inventory is within the limit and every archive of the server is among the newest 64 here; then it transfers and changes nothing. |
| BackupRoundTrip.SecondPullOfMirror | scripts/maintenance/pull_backups_to_operator.py:61-67 | On a machine that held nothing but archives of the server, a second pull succeeds, and transfers nothing, if and only if the second inventory is within the limit. |
| BackupRoundTrip.OldArchiveIsRefusedTheSecondTime | scripts/maintenance/pull_backups_to_operator.py:151-153 | With 64 newer archives here, the server's older one comes once and the second pull is refused. |
| BackupRoundTrip.FullInventoryIsRefusedTheSecondTime | scripts/maintenance/pull_backups_to_operator.py:61-67 | A server whose first inventory fills the limit, each row that announces nothing being a letter longer, fills an empty machine once and refuses the second time. |
| Counters.TallyConserves | APITaxi2/tasks/stats.py:36-37 | The values of a counter add up to the number of keys counted. |
| Counters.TallyHolds | APITaxi2/tasks/stats.py:65-84 | A counter holds a key with a value exactly when the key was seen that often, and at least once. |
| ActivityStats.CountZoneOperators | APITaxi2/tasks/stats.py:96-104 | The three nested loops count the free descriptions of each zone and operator. |
| ActivityStats.CountTownOperators | APITaxi2/tasks/stats.py:79-84 | The two nested loops count the free descriptions of each town and operator. |
| ActivityStats.CountOperators | APITaxi2/tasks/stats.py:65-68 | Every description counts for its operator, free or not. |
| ActivityStats.Statistics.LogActiveTaxis | APITaxi2/tasks/stats.py:18-114 | One run appends the entries of the total, towns, zones, operators, towns and operators, zones and operators, in that order. |
| ActivityConservation.TownsAddUpToTotal | APITaxi2/tasks/stats.py:31-47 | The values of the towns add up to the total. |
| ActivityConservation.TownEntriesExactly | APITaxi2/tasks/stats.py:36-47 | A town is logged if and only if it has active taxis, with their number. |
| ActivityConservation.ZoneEntriesExactly | APITaxi2/tasks/stats.py:49-63 | A zone is logged if and only if it allows the town of an active taxi, with the number of those taxis. |
| ActivityOutcomes.LoggedExactly | APITaxi2/tasks/stats.py:18-114 | A run logs an entry if and only if it tells its number, counted as a set of the data: the total, the taxis of a town or of a zone, the descriptions of an operator, its free descriptions in a town or in a zone; all but the total only when not zero. |
| ActivityOutcomes.LoggedOnce | APITaxi2/tasks/stats.py:18-114 | No two entries of a run are about the same town, zone and operator. |
| ActivityOutcomes.TownsComeInOrder | APITaxi2/tasks/stats.py:38-47 | The entries of towns alone come in the order of their codes. |
| ActivityConservation.OverlapsAreCountedTwice | APITaxi2/tasks/stats.py:55-63 | Over all zones each taxi counts once for every zone that allows its town. |
| ActivityConservation.ZonesAddUpTheirTowns | APITaxi2/tasks/stats.py:79-104 | The value of an operator in a zone is the sum of its values in the zone's towns, for any overlapping zones. |
| ActivityConservation.OperatorIsMoreThanItsTowns | APITaxi2/tasks/stats.py:65-84 | The value of an operator exceeds the sum of its values in the towns by the number of its busy descriptions. |
| ActivityConservation.OperatorAddsUpExactly | APITaxi2/tasks/stats.py:65-84 | An operator's values in the towns add up to its value if and only if none of its descriptions of active taxis is busy. |
| ActivityConservation.BusyTaxiIsInNoTown | APITaxi2/tasks/stats.py:65-84 | One taxi with one busy description: its operator has the value 1 and its towns add up to 0. |
| LabelEscape.ThreePassesAreOne | APITaxi2/observability.py:124-125 | The three replacements one after the other are one pass over the characters. |
| LabelEscape.EscapedIsClean | APITaxi2/observability.py:124-125 | An escaped value holds no newline, and every quote and backslash in it belongs to an escape. |
| LabelEscape.QuotedIsReadBack | APITaxi2/observability.py:128-133 | A reader finds the value and the end of its quotes, whatever follows. |
| LabelEscape.EscapeIsInjective | APITaxi2/observability.py:124-125 | Different values have different escaped forms. |
| Numerals.FixedIsReadBack | APITaxi2/observability.py:165-170 | Three digits after the point give the thousandths back. |
| Metrics.HttpMetrics.RecordHttpMetrics | APITaxi2/observability.py:61-69 | A response adds one to its key's count, and its duration when known; nothing when the metrics are off. |
| Metrics.HttpMetrics.RenderMetrics | APITaxi2/observability.py:136-185 | The three loops print the text of the specification. |
| Metrics.RecordedPerKey | APITaxi2/observability.py:61-69 | After any responses each key has the number of its responses and, when one was timed, the sum of its durations. |
| Metrics.RecordingConserves | APITaxi2/observability.py:61-69 | The counts add up to the number of responses, the sums to all durations. |
| Metrics.LabelsAreSorted | APITaxi2/observability.py:128-133 | The labels come out in the order endpoint, method, status. |
| MetricsReader.LineIsReadBack | APITaxi2/observability.py:146-152 | A line gives its name, key and number back, whatever characters method, endpoint and status hold. |
| MetricsReader.TextIsReadBack | APITaxi2/observability.py:136-185 | The text gives every sample back, in order. |
| MetricsReader.CommentsComeFirst | APITaxi2/observability.py:136-185 | The text has one line for each sample and, before those of each name, the two comments that say what it is and that it counts. |
| MetricsReader.CollectorCountsEveryResponse | APITaxi2/observability.py:136-185 | After any responses the text tells a key a count if and only if the key had so many responses, and at least one. |
| MetricsReader.CollectorAddsEveryDuration | APITaxi2/observability.py:154-170 | The text tells a key a duration if and only if one of its responses was timed and their durations add up to it. |
| MetricsReader.DurationsAreCountedExactly | APITaxi2/observability.py:172-183 | What the text calls the count of a key's durations is their number if and only if the duration of each of its responses is known, and there is one. |
| MetricsReader.UntimedResponseIsCounted | APITaxi2/observability.py:66-69 | One response without a duration: the count of durations is 1 and the text has no sum for the key. |

## Left out

- DispatchService.Service.CreateHail: the search session (`_check_session_id`, `_get_existing_session_id`), the ban of a customer and reverse geocoding are inputs of the request that say whether each check passes.
- Dispatch.Step: countdowns are not modelled, since any pending job may run at any time; deadlocks, other waits for locks than that of one reassignment for another, failures of the database, the cache and the queue, and crash windows between a commit and the scheduling of its jobs are not modelled.
- DispatchPlacement.ReadingChooses: the queries of one reading see one committed state; `SplitReading` takes them apart, up to those by which the taxis nearby are found, whose result is an input.
- DispatchHistory.SourcesAreUsedOnce: a request commits and chooses what follows in one step; `SplitFollowUp` takes the two apart for requests on hails. The send and the handoff, which choose a timer in the same way, are not taken apart: a timer that is scheduled twice is inert the second time.
- DispatchHistory.HailsAndTaxisAgree: assumes one vehicle description per taxi and one taxi per description; taxis that share a description are outside the model.
- DispatchHistory.ChainAsksEachTaxiOnce: concerns reassignments; a customer's own requests are bound neither by the limit nor by the taxis already contacted.
- DispatchHistory.AcceptedRequestsAreIdempotent: other fields sent along with the repeated status are only absent, permitted or forbidden; what a permitted one writes is not modelled.
- SplitSend.UndisturbedServiceIsAtomic: at most one worker is between the read and the write of one hail's request; a second delivery of the same job is not modelled.
- DispatchService.Service.ChangeHail: the limit of two months on access, the values of fields other than the status (kept only as absent, permitted or forbidden), bans and logs of requests.
- DispatchService.Service.ChangeTaxi: radius, the times of changes, and the availability flag in the cache.
- Dispatch.KillsJob: a decoded body has its JSON kinds, in which unpaired surrogates cannot be written; which texts raise in the decoder or in the copy for the log is part of the reply, and what the text column and the database driver make of a number of any kind is a function that is given, which refuses or stores it.
- PositionIndex.IndexAgrees: one cleaner at a time, one clock for all hosts that is past the first seconds of its epoch and does not go back, and reports that are written at least a second before they expire; members are pairs of taxi and operator instead of text with a colon.
- TaxiSearch.TaxisLocationsByOperator: the index is a list of members with their distances in rising order; geometry, geohash precision, exclusion zones, towns and zones are inputs.
- SearchPipelines.Search: the statistics of a search, fake taxi ids and the shape of the answer.
- BackupPull.Destination.Pull: the transport, locks, signals, temporary names, permissions and links of files, the JSON text of requests, inventories and proofs (an inventory is its rows and its size), the verdict on the age of the newest archive, and local files whose names look like archives without being digits.
- BackupArchives.ValidateHeader: names are the fourteen digits they contain, so their order is that of numbers.
- Metrics.HttpMetrics.RecordHttpMetrics: durations are whole thousandths of a millisecond; rounding of floating-point sums is not modelled.
- Numerals.FixedIsReadBack: likewise on whole thousandths, where the source rounds a float to three digits.
- MetricsReader.CollectorAddsEveryDuration: likewise on exact sums.
- ActivityStats.Statistics.LogActiveTaxis: the queries that collect active taxis and zones are inputs; zones have distinct ids and distinct towns, as their tables demand.
- Retention of old rows, accounts, roles, vehicles, drivers, stations and other plain records: one branch each, nothing to prove across functions.
