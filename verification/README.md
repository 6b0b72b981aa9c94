# A verified model of TOHSENO's durable machinery

TOHSENO turns an owner's intention into an app on a Mac that nobody watches: commands are
admitted durably, executions run unattended, service and phone may stop at any moment, and
releases are governed by signed activations. This project models the parts of that system
whose promises span several operations, several processes or several crashes, and proves
those promises in Dafny.

`dafny verify dfyconfig.toml` checks everything.

| module | what it models |
|---|---|
| `ExecutionPhases`, `ExecutionRecord`, `ExecutionLifecycle`, `ExecutionStore` | one execution's phase, event journal and completion; finalization and reconciliation, stopped after any durable write |
| `RunnerProtocol`, `RunnerExclusion`, `RunnerRecovery`, `RunnerWork`, `RunnerRecord`, `RunnerDecisions`, `RunnerHazards` | any number of launchers, runners, descendants and claim probes over `runner.lock`, `runner.pid`, `run.claim` and the execution's record, every durable write a step of its own |
| `FactoryLease` | the machine-wide lease and the delivery loop that gives it back while it waits for the iPhone |
| `HarnessBudget` | the supervisor of a harness process and the one shared budget |
| `Command`, `JournalTransitions`, `JournalAdmission` | command states, the locked status update, stage-and-rename admission |
| `CommandClaims`, `ApplicationService`, `ApplicationRuns`, `MarketingNotes` | per-command mutexes, the create/evolve/note processors with their monitors, the note file |
| `Entitlement` | the trial and subscription store |
| `Unicode`, `CanonicalJson`, `JsonParser`, `CanonicalBytes` | RFC 8785 canonical JSON (sections 3.2.2.2 and 3.2.3) against a strict parser, and domain-separated preimages |
| `DerSignature`, `ActivationApprovals`, `ActivationChain` | DER signatures (section 8.3 of ITU-T X.690), threshold approvals, hash-linked successors |
| `ChecksumManifest` | checksum manifests of release trees |
| `CompanionMailbox` | the phone's mailbox cursor, replay window and snapshot |

Where the code changes state step by step the model does too: classes with the source's
fields, methods with the source's loops, each tied by its `ensures` to a specification
function, about which the laws are proved. Protocols between processes are step relations
with a crash step that is always enabled; their laws hold for every run.

## What turned out not to hold

The code is kept as it is; each of these has a lemma that shows the failure and one that
says exactly when the promise is met.

- A launcher loads the execution's phase before it checks for a live runner. A runner that
  fails fast in between leaves it with a stale phase, and from every prepared execution it
  may start a second runner on one that has failed
  (`RunnerHazards.SoundRunsReachAStaleDecision`,
  `RunnerHazards.StaleDecisionRestartsFinished`). Recovery acts alone, on one live runner at
  a time, when no launcher acts on a terminal phase (`RunnerRecovery.AtMostOneLiveRunner`,
  `RunnerRecovery.RecoveryActsAlone`), and in general if and only if no live runner is
  recorded, claimed or unseen (`RunnerWork.ActsAloneExactly`); its action is the right one if
  and only if the phase read again gives the same disposition
  (`RunnerRecovery.ActionIsRightExactlyWhenFresh`).
- That second runner never looks for an outcome: it replaces the published completion, the
  journal gets two contradicting terminal events, and no finalization is ever accepted again
  (`RunnerHazards.StaleDecisionReplacesOutcome`,
  `ExecutionLifecycle.RestartedIsNeverReconciled`). Acting only on open phases is no remedy:
  a resumption with a stale phase replaces a completion published just before a crash
  (`RunnerHazards.OpenDecisionReplacesOutcome`). The record is kept in every continuation if
  and only if a start finds no completion, a resumption finds none or a phase its runner
  refuses, and the revert of a start finds no terminal event
  (`RunnerDecisions.SafeExactlyWhenGuarded`); finalization needs no condition. Write by write
  and for every run whatsoever the condition is
  `RunnerRecord.RecordKeptExactlyByOrderlyWrites`; for one process at a time,
  `ExecutionLifecycle.RunsKeepRecordExactly`.
- A launcher that crashes between spawning a runner and recording its PID lets a runner
  work on an execution that another one has finished
  (`RunnerHazards.CutHandOffRunsFinishedExecution`). In every run, hand-started runners
  included, no runner is ever at work on a terminal phase if and only if every runner that
  enters its work finds the phase open when it reads it again under its claim, and nobody
  works when a finalization writes the outcome (`RunnerWork.WorkIsOpenExactly`).
- When the device wait inside a delivery fails, or the lease cannot be taken again after
  it, and a repair is allowed, the repair's harness runs without the lease
  (`FactoryLease.RepairAfterFailedWaitIsUnleased`; exactly when: `FactoryLease.WorkIsLeased`).
- A crashed runner gives its lease back while its harness lives on. One process tree is at
  work throughout a run if and only if whoever takes the lease or begins a repair finds
  neither another runner at work nor such a harness
  (`FactoryLease.OneTreeExactlyWhenUndisturbed`).
- An error inside a supervisor tick returns with the harness alive and unsupervised; its
  life is then unbounded if and only if some tick of the schedule reaches its fault point -
  a workspace scan before anything was reported, a heartbeat that is due, the reason for
  stopping - before SIGKILL is due (`HarnessBudget.FaultBeforeKillIsUnbounded`).
- A marketing note within its own limit can have a record beyond the limit of the reader
  that every retry uses: a note of 100,000 quotation marks that crashed after publishing can
  never complete (`MarketingNotes.QuotedNoteIsTooLarge`, `MarketingNotes.RetryAcceptsExactly`).
- The assembler accepts the zero digest and the verifier refuses it
  (`ActivationApprovals.AssembledIsAccepted`).
- The manifest of a tree without any other file is empty and does not verify
  (`ChecksumManifest.FreshManifestVerifies`).
- `validate_state` accepts a Pro state without any successful day; the store's operations
  never produce one (`Entitlement.ValidationIsWeaker`, `Entitlement.EveryRunIsLawful`).

The comment beside the store in `reconcile_phone_once` says that a crash leads to an idempotent ACK retry; in
the code the acknowledgement is sent again only with the next non-empty page, which is what
`CompanionMailbox` models.

## Model

| member | source | states |
|---|---|---|
| ExecutionPhases.RecoverySpawnsOnlyAdmittedRunners | application/src/execution_manager.rs:326-357 | recovery spawns a runner exactly for the phases that `run_shot` lets in, but for two phases that only a hand-started runner enters |
| ExecutionRecord.TerminalScanIsExact | application/src/execution_manager.rs:864-892 | the scan finds its event if and only if the journal ends with that one terminal event, nothing if and only if there is none, and refuses everything else |
| ExecutionRecord.ReconcileAcceptsExactly | application/src/execution_manager.rs:790-853 | reconciliation succeeds if and only if the completion binds the preparation, its evidence holds, and the record is one that a stop inside one phase update could have left |
| ExecutionRecord.RetriesPublishOneTerminalEvent | application/src/execution_manager.rs:790-853 | every schedule of interrupted attempts from a record without a terminal event ends in one determined record: earlier events unchanged, at most one terminal event, last and agreeing with completion and phase |
| ExecutionRecord.SettledForGood | application/src/execution_manager.rs:864-892 | once the terminal event is there, any further attempts change nothing and none is refused |
| ExecutionLifecycle.CompletionOrderly | engine/src/shot_execution.rs:550-725 | completing an execution keeps the record invariant after every single write, and ends settled with its own completion |
| ExecutionLifecycle.FinalizationSettles | application/src/execution_manager.rs:736-788 | finalization is refused only for missing evidence of a claimed acceptance, otherwise settles the record when uninterrupted, and never moves a settled one; with which outcome, the four rows below |
| ExecutionLifecycle.CompletionOutcome | engine/src/shot_execution.rs:550-725 | a completed execution landed exactly if its Version was accepted and verified, is cancelled exactly if it did not land and was stopped by hand, failed otherwise; completion, phase and last event agree on it |
| ExecutionLifecycle.CompletionJournal | engine/src/shot_execution.rs:562-725 | a completion adds to the journal a change not yet noted, the start and the end of the validation, and the outcome, in this order and nothing else |
| ExecutionLifecycle.FinalizationOutcome | application/src/execution_manager.rs:762-788 | an abandoned execution without a completion lands exactly if its Version had been accepted and verified, fails otherwise, and is never cancelled |
| ExecutionLifecycle.ReconciliationOutcome | application/src/execution_manager.rs:744-753 | with a completion, finalization makes the record show that completion's outcome, or changes nothing if a claimed acceptance cannot be verified |
| ExecutionLifecycle.WriteKeepsRecordExactly | engine/src/shot_execution.rs:443-451 | one durable write leaves the record recoverable and its completion in place if and only if it is orderly: nothing after a terminal event, terminal phase and event only those of the completion, no second completion |
| ExecutionLifecycle.RunsKeepRecordExactly | application/src/execution_manager.rs:736-853 | on every run of progress, heartbeats, completion and finalization, stopped anywhere, the record is kept at every point if and only if no runner writes after a terminal event or publishes over another completion; finalization may come at any time |
| ExecutionLifecycle.RestartedIsNeverReconciled | application/src/execution_manager.rs:528-545 | a nonterminal phase written over a settled record makes every later finalization refuse it |
| ExecutionStore.Store.UpdatePhase | engine/src/shot_execution.rs:443-455 | the phase is written, then the event is appended, and either may be the last thing that happens |
| ExecutionStore.Store.ReconcilePublishedCompletion | application/src/execution_manager.rs:790-853 | performs exactly the specified attempt, and its re-scan never fails |
| ExecutionStore.Store.CompleteExecution | engine/src/shot_execution.rs:550-725 | performs the completion's writes in order, the completion before the terminal phase, up to the stop |
| ExecutionStore.Store.FinalizeStalled | application/src/execution_manager.rs:736-788 | performs exactly the specified finalization and reports how it ended |
| RunnerExclusion.OneTreePastTheClaim | application/src/execution_manager.rs:450-526 | in every interleaving with crashes, all processes past the claim belong to one runner's tree, and meanwhile no probe holds it and no runner can take it |
| RunnerExclusion.DurableChangesAreNoted | application/src/execution_manager.rs:894-945 | record and PID file change only by a launcher or by a runner noted as a writer |
| RunnerExclusion.LoserWritesNothing | application/src/execution_manager.rs:902-914 | a runner that lost the claim has changed no phase, PID or event and can only exit |
| RunnerRecovery.AtMostOneLiveRunner | application/src/execution_manager.rs:261-316 | with whole hand-offs and launchers that act only on open phases one runner is live, on an unfinished execution it is recorded or being recorded, and it works only on an open phase |
| RunnerRecovery.RecoveryActsAlone | application/src/execution_manager.rs:261-357 | in the same runs recovery starts, resumes or finalizes only when no process of any earlier tree survives |
| RunnerRecovery.ActionIsRightExactlyWhenFresh | application/src/execution_manager.rs:326-357 | a resumption meets a delivery to resume, a start an execution not begun, a finalization one that recovery may not run, if and only if the phase read again gives the same disposition |
| RunnerWork.WorkIsOpenExactly | application/src/execution_manager.rs:901-945 | on every run with hand-started runners and crashes anywhere, no runner is ever at work on a terminal phase if and only if each enters its work on a phase found open again under its claim and nobody works when a finalization writes the outcome |
| RunnerWork.WorkStaysOpenExactly | application/src/execution_manager.rs:901-945 | the same for one step: what a single step may break, and that completions and starts never do |
| RunnerWork.ActsAloneExactly | application/src/execution_manager.rs:269-316 | on every run a launcher about to act acts alone if and only if the PID file names no live runner, the claim is free, and no live runner is both unrecorded and unclaimed |
| RunnerRecord.RecordKeptExactlyByOrderlyWrites | application/src/execution_manager.rs:261-853 | on every run of any processes the record keeps one outcome, never replaced, if and only if every write is orderly when it is performed |
| RunnerDecisions.GuardedRunsKeepRecord | application/src/execution_manager.rs:261-853 | in runs whose launchers restart and revert nothing that has its outcome, the record stays recoverable with at most one terminal event, no completion is replaced, and a settled record never changes |
| RunnerDecisions.SafeExactlyWhenGuarded | application/src/execution_manager.rs:269-316 | a step keeps the record in every such continuation if and only if a start finds no completion, a resumption none or a phase its runner refuses, the revert of a start no terminal event |
| RunnerHazards.SoundRunsReachAStaleDecision | application/src/execution_manager.rs:269-316 | from every prepared execution, launchers that have kept to any of the rules reach a decision on a stale phase |
| RunnerHazards.StaleDecisionRestartsFinished | application/src/execution_manager.rs:528-607 | acting on it puts a second live runner on an execution that had failed |
| RunnerHazards.StaleDecisionReplacesOutcome | engine/src/shot_execution.rs:702-723 | the second runner replaces the completion, leaves two contradicting terminal events, and every finalization is refused from then on |
| RunnerHazards.OpenDecisionReplacesOutcome | application/src/execution_manager.rs:286-295 | launchers that act only on open phases still let a resumed runner replace a completion published before a crash |
| RunnerHazards.CutHandOffRunsFinishedExecution | application/src/execution_manager.rs:585-607 | a crash between spawning and recording lets a runner work on a completed execution |
| FactoryLease.WorkIsLeased | application/src/execution_manager.rs:1188-1251 | a runner in harness or build work holds the lease exactly if no failed device wait or re-take has cost it the lease, and only a repair pass can have lost it |
| FactoryLease.WorkIsExclusive | application/src/factory_lease.rs:44-101 | two runners work at once only if one of them lost the lease that way |
| FactoryLease.NoHoldAndWait | application/src/factory_lease.rs:87-126 | who waits for the iPhone or the lease holds nothing; who waits for the lease waits on a live runner that waits for neither, and its crash frees the lease |
| FactoryLease.WorkIsExclusiveWhenWaitsSucceed | application/src/execution_manager.rs:894-1111 | in runs whose device waits and re-takes succeed and whose crashes leave no harness behind, one runner works at a time and holds the lease |
| FactoryLease.OneTreeExactlyWhenUndisturbed | application/src/execution_manager.rs:1384-1396 | counting the harness that a crashed runner leaves behind, one process tree is at work throughout a run if and only if whoever took the lease or began a repair was undisturbed |
| FactoryLease.RepairAfterFailedWaitIsUnleased | application/src/execution_manager.rs:1042-1090 | a concrete run with two harnesses at work, one of them without the lease |
| FactoryLease.DeliveringRunner.RecordAndDeliverWithWait | application/src/execution_manager.rs:1188-1251 | outcome, lease variable and acts of the delivery loop, over every sequence of gate results |
| FactoryLease.LoopFollowsMachine | application/src/execution_manager.rs:1188-1251 | the loop's acts are a walk of the lease protocol's runner and end in its state |
| FactoryLease.AtMostTwoPasses | application/src/execution_manager.rs:988-1186 | a run does harness work at most twice, a resumed delivery never |
| HarnessBudget.BoundedSetting | application/src/execution_manager.rs:1549-1557 | a configured bound is used if positive and allowed, and no setting disables the bound |
| HarnessBudget.Supervisor.ExecuteHarness | application/src/execution_manager.rs:1376-1545 | the supervision loop computes the specified ending and leaves the supervisor in its state |
| HarnessBudget.SupervisedBySchedule | application/src/execution_manager.rs:1412-1545 | the supervisor ends at the first event at which the schedule has the harness exited, killed, or a fault point reached, with heartbeats, progress, reason, SIGTERM, SIGKILL and Ctrl-C exactly as the schedule says |
| HarnessBudget.ExitTime | application/src/execution_manager.rs:1412-1437 | the end it reports is that of the exit or of SIGKILL, whichever came first |
| HarnessBudget.StubbornHarnessIsKilled | application/src/execution_manager.rs:1420-1520 | on the clock: SIGTERM at 60 seconds under a stall bound of one minute, SIGKILL at 90, neither a millisecond earlier |
| HarnessBudget.HarnessEndsInTime | application/src/execution_manager.rs:1420-1545 | with timely ticks that do not fail, no harness is alive 96 seconds after the deadline, whether or not it honours SIGTERM: it has exited, been killed by then, or the schedule has not got there |
| HarnessBudget.IdleHarnessEndsInTime | application/src/execution_manager.rs:1484-1520 | a harness that changes nothing is dead before its stall time plus 96 seconds, however much budget is left |
| HarnessBudget.SignalsInOrder | application/src/execution_manager.rs:1427-1520 | on every schedule SIGKILL follows SIGTERM by at least 30 seconds and SIGTERM has a recorded reason |
| HarnessBudget.FaultBeforeKillIsUnbounded | application/src/execution_manager.rs:1445-1515 | the harness can outlive every bound if and only if some tick of the schedule reaches its fault point before SIGKILL is due, both read off the events |
| HarnessBudget.FailedHeartbeatLeavesHarness | application/src/execution_manager.rs:1472-1482 | one heartbeat that cannot be appended is such a failure |
| HarnessBudget.ProductiveHarnessIsLeftAlone | application/src/execution_manager.rs:1484-1520 | a harness seen to progress at every heartbeat inside the budget is never signalled |
| HarnessBudget.RepairedExactly | application/src/execution_manager.rs:1023-1066 | the harness runs a second time if and only if the first was seen to exit by itself, successfully, without Ctrl-C or a stop due, and its work was rejected for something repairable inside the budget |
| HarnessBudget.RunInvocationsEndInTime | application/src/execution_manager.rs:988-1090 | a run invokes the harness at most twice, a repair, whenever it is launched, does not restart the clock, and none is alive 96 seconds after the one budget's end or, if that is later, its own launch |
| Command.TransitionsAdvance | application/src/command.rs:42-75 | over any number of transitions the rank never falls, stays equal only between the two states of a running execution, and terminal states are final |
| Command.TransitionsByTarget | application/src/command.rs:49-75 | where each state may be entered from, read by target: the relation has no other transition |
| JournalTransitions.TransitionSucceedsExactly | application/src/journal.rs:244-299 | a transition succeeds if and only if the relation allows it, no second receipt is given, the target's demand is met, and a repeated state brings nothing new |
| JournalTransitions.TransitionKeeps | application/src/journal.rs:244-299 | a transition publishes what was asked, keeps the receipt and a reason not given anew, leaves a well-formed status, and may be repeated without effect |
| JournalTransitions.StatusFile.Transition | application/src/journal.rs:244-299 | publishes exactly the specified status or changes nothing |
| JournalTransitions.StatusOnlyAdvances | application/src/journal.rs:244-299 | on every run of concurrent, crashing callers a terminal status and a receipt never change, a reason never disappears, and every caller was told something the file keeps |
| JournalAdmission.ValidatePrivateFiles | application/src/journal.rs:536-584 | accepts exactly at most eight distinct, safely named files within both size limits; names are bounded in UTF-8 bytes and free of every control character |
| JournalAdmission.NameLengthIsUtf8 | application/src/journal.rs:570-573 | the length limited is that of the name's UTF-8 encoding |
| JournalAdmission.FileLimits | application/src/journal.rs:536-584 | the limits and the characters refused in a name, spelt out |
| JournalAdmission.ReadExisting | application/src/journal.rs:388-486 | answers as specified whatever the order of the directory listing |
| JournalAdmission.ExistingMatchesExactly | application/src/journal.rs:388-486 | a retry is taken if and only if identity, payload bytes and the whole input collection are those first admitted |
| JournalAdmission.BuiltCompletely | application/src/journal.rs:189-213 | a complete staging directory holds exactly what was submitted |
| JournalAdmission.StagingIsNoCommand | application/src/journal.rs:602-613 | no staging name is a valid command ID |
| JournalAdmission.SuccessIsThePublishedCommand | application/src/journal.rs:129-242 | every successful caller, in every interleaving with crashes, got the published record, and that is what it submitted |
| JournalAdmission.RenamePublishesOrCollides | application/src/journal.rs:214-240 | the rename publishes the caller's own command and succeeds, or the ID was published before and nothing changes |
| JournalAdmission.AdmittedAloneExactly | application/src/journal.rs:169-240 | undisturbed, a new command is admitted exactly if the journal has fewer than 100,000 entries, with its own record |
| JournalAdmission.PublishedOnce | application/src/journal.rs:129-242 | a published command is complete and never changes but for its status |
| JournalAdmission.SuccessfulCallersAgree | application/src/journal.rs:214-240 | two successful callers of one ID submitted the same command and got the same record |
| CommandClaims.ClaimMap.Resolve | application/src/application_service.rs:380-391 | the look-up with its eviction leaves the specified map and gives the specified mutex |
| CommandClaims.EvictsAtLimit | application/src/application_service.rs:380-391 | below 1,024 entries a look-up leaves all others, from there on exactly those whose mutex is owned |
| CommandClaims.OverlappingProcessorsShareOneMutex | application/src/application_service.rs:380-395 | overlapping processors share a mutex if and only if they process the same command, so at most one is inside its claim, despite eviction |
| ApplicationService.ReturnedReceiptsAgree | application/src/application_service.rs:433-593 | every receipt ever returned, and the stored one, are the same receipt: the command's own kind, its derived execution identity, the Shot of that durable execution, which for an evolution or a note is the one named |
| ApplicationService.EngineCalledOnlyBeforeExecution | application/src/application_service.rs:472-559 | the engine's create or evolve is never called once the command's execution is durable |
| ApplicationService.StateCarriesItsReceipt | application/src/application_service.rs:1709-1766 | running, waiting and completed commands carry a receipt of their own kind, other ended ones their reason; the missing-receipt error is unreachable |
| ApplicationService.CompletedMeansLanded | application/src/application_service.rs:1293-1393 | a completed create or evolve has had a landed completion that repeats the identity and binding of its preparation, and a verified Version, with any number of monitors racing |
| ApplicationService.EndedMeansItsCompletion | application/src/application_service.rs:1375-1424 | a command with its receipt is cancelled only by a cancelled completion of its own execution, failed only by one that neither landed nor was cancelled or by a monitor that gave up, and never rejected |
| ApplicationService.ReconciledExactly | application/src/application_service.rs:1293-1393 | an undisturbed reconciliation of a running command leaves it completed, cancelled or failed as its completion says, unchanged if that does not bind, and without one waiting for the iPhone exactly if the phase says so |
| ApplicationService.ProcessorPublishes | application/src/application_service.rs:433-593 | the journal takes what a processor publishes: accepted or rejected as decided, failed when the engine fails, running or completed together with the receipt |
| ApplicationService.AnsweredExactly | application/src/application_service.rs:1709-1766 | a processor answers from a stored receipt exactly when there is one and the command was not rejected, failed or cancelled |
| ApplicationService.ResumedExactly | application/src/application_service.rs:433-471 | without a receipt it goes on exactly with a valid command that has not begun to run, and rejects an invalid one |
| ApplicationService.ShotIsStable | application/src/application_service.rs:472-559 | the Shot an execution is for is chosen once |
| ApplicationService.PreparedAsAsked | application/src/execution_manager.rs:139-186 | a preparation that is made is for this Shot, this kind and this work |
| ApplicationService.ExecutionIsStable | application/src/execution_manager.rs:139-186 | a command's durable execution is never replaced, whatever other commands prepare and whatever a retry would prepare instead |
| ApplicationRuns.CrashedCreationCompletes | application/src/application_service.rs:472-512 | a run whose service crashes between the durable execution and the receipt: the retry answers with that execution's receipt and the command completes |
| ApplicationService.MonitorExecution | application/src/application_service.rs:1395-1424 | a monitor stops at the first ended execution or gives up at the first fifth error in a row, and not before |
| MarketingNotes.NoteIsTheFirstAdmission | application/src/application_service.rs:864-941 | however attempts crash and retry, one note is published, it is the record of the first admission, and no attempt meets different bytes |
| MarketingNotes.RetryAcceptsExactly | application/src/application_service.rs:1874-1904 | a retry that finds the note published succeeds if and only if the record is within the reader's limit |
| MarketingNotes.QuotedNoteIsTooLarge | application/src/application_service.rs:1874-1880 | bodies within the note limit whose record is beyond the reader's limit |
| Entitlement.ValidateState | application/src/entitlement.rs:554-610 | accepts exactly the states the specification calls valid, with the four sets of keys |
| Entitlement.IdentifierBounds | application/src/entitlement.rs:612-660 | the lengths and characters of identifiers and digests, spelt out |
| Entitlement.EntitlementStore.StatusAt | application/src/entitlement.rs:193-207 | leaves exactly the specified state or error |
| Entitlement.EntitlementStore.AnchorTrial | application/src/entitlement.rs:217-264 | leaves exactly the specified state or error |
| Entitlement.EntitlementStore.RecordSuccessfulDayAt | application/src/entitlement.rs:305-351 | leaves exactly the specified state or error |
| Entitlement.EntitlementStore.InstallVerifiedSubscription | application/src/entitlement.rs:366-413 | leaves exactly the specified state or error |
| Entitlement.OperationKeepsLaw | application/src/entitlement.rs:193-413 | every operation keeps the law and what was earned, and never writes or reads a state that validation refuses |
| Entitlement.StatusIsCurrent | application/src/entitlement.rs:503-531 | a status query expires a trial exactly from its seventh day on and lapses a subscription exactly when its paid time is over, and changes nothing else |
| Entitlement.AnchorTakesEffectExactly | application/src/entitlement.rs:217-264 | an anchor takes effect exactly on a store without one and at a writable time, stores that time and that day, opens the trial, notes a migration only if it is one, and leaves all else |
| Entitlement.TrialLastsSevenDays | application/src/entitlement.rs:503-518 | whatever follows an anchor, an unqualified trial is open on its day and six more and found expired from the seventh on |
| Entitlement.AllowedExactly | application/src/entitlement.rs:35-41 | factory work is allowed exactly in an open trial without its five days or under a paid subscription, purchase exactly with five days and none |
| Entitlement.ChangesAreCounted | application/src/entitlement.rs:193-413 | an operation that changes the state raises its revision once |
| Entitlement.RecordAddsExactly | application/src/entitlement.rs:305-351 | a day is added exactly when it counts, it is the only one, and the fifth qualifies at once |
| Entitlement.RecordLeavesExactly | application/src/entitlement.rs:305-351 | recording touches the days and the phase of an open trial and nothing else, and otherwise does what a status query does |
| Entitlement.RefusedExactly | application/src/entitlement.rs:305-413 | which error a refused day or subscription gives, and that every other one succeeds |
| Entitlement.InstallTakesEffectExactly | application/src/entitlement.rs:366-413 | installing changes the state if and only if the receipt is current, five days are recorded and the provider revision is newer |
| Entitlement.EveryRunIsLawful | application/src/entitlement.rs:193-413 | on every run exactly qualified, Pro and lapsed states hold five days, no state more, in strict order, apart in all four keys and inside the trial; expiry is absorbing; nothing is lost; provider revisions only rise |
| Entitlement.ValidationIsWeaker | application/src/entitlement.rs:554-610 | a state that validation accepts and no run reaches |
| Unicode.Utf8IsInjective | scripts/verify-contract-activation.py:121-142 | the UTF-8 bytes determine the text |
| Unicode.DecodesExactly | scripts/verify-contract-activation.py:76-79 | a strict decoder after RFC 3629 reads some bytes as a text if and only if they are its encoding: lead and continuation bytes, shortest forms, no surrogates |
| Unicode.Utf16IsInjective | scripts/verify-contract-activation.py:117-118 | the sort key determines the object key |
| Unicode.Utf16DecodesBack | scripts/verify-contract-activation.py:117-118 | a strict reader of code units gives the key back: high surrogate first |
| Unicode.BigEndianKeepsOrder | scripts/verify-contract-activation.py:117-118 | ordering the big-endian bytes of two keys is ordering their code units |
| CanonicalJson.EqualNormalizes | scripts/verify-contract-activation.py:121-142 | two values of the domain are equal as dictionaries if and only if their forms sorted by UTF-16 units coincide |
| CanonicalJson.SortOrders | scripts/verify-contract-activation.py:136-138 | sorted members are in strictly ascending UTF-16 order |
| CanonicalJson.SpelledAsInJson | scripts/verify-contract-activation.py:124-140 | literals, marks, digits and the number domain are those of JSON, spelt out |
| CanonicalJson.EscapedAsInJson | scripts/verify-contract-activation.py:132-133 | the escapes are those of JSON, spelt out, and nothing else is escaped |
| JsonParser.ParsesValue | scripts/verify-contract-activation.py:65-91 | the strict reader gives back every printed value of the domain, whatever follows |
| JsonParser.ShortestSpelling | scripts/verify-contract-activation.py:132-133 | of all spellings the reader accepts for a string the printed one is the only shortest |
| JsonParser.KeyOrderIsNotCodePointOrder | scripts/verify-contract-activation.py:117-118 | a pair of keys that UTF-16 order and code point order put differently |
| CanonicalBytes.CanonicalRoundTrip | scripts/verify-contract-activation.py:94-142 | canonical text reads back as the same value, its dictionaries sorted |
| CanonicalBytes.BytesRoundTrip | scripts/verify-contract-activation.py:70-142 | a value has canonical bytes exactly if it is in the domain, they are strict UTF-8 of its canonical text, and loading them gives the value back, its dictionaries sorted |
| CanonicalBytes.CanonicalExactlyWhenEqual | scripts/verify-contract-activation.py:94-142 | two values have the same canonical bytes if and only if they are equal, whatever the insertion orders |
| CanonicalBytes.CanonicalHasNoZero | scripts/verify-contract-activation.py:121-142 | canonical text and bytes contain no zero |
| CanonicalBytes.PreimagesDetermineKindAndValue | scripts/assemble-signed-activation.py:28-37 | two hashed preimages coincide if and only if kind and value do |
| CanonicalBytes.ActivationKindsNeverCoincide | scripts/assemble-signed-activation.py:29-38 | a claims activation and a contract activation are never hashed from the same bytes |
| DerSignature.ContentsMinimal | scripts/sign-contract-activation.py:133-138 | the contents octets are a minimal non-negative form of the number |
| DerSignature.MinimalFormIsUnique | scripts/sign-contract-activation.py:133-138 | the minimal form is the only one, so every minimal encoding is the printed one |
| DerSignature.ParseDerSignature | scripts/sign-contract-activation.py:147-157 | the loop over two integers reads what the specification reads, or fails |
| DerSignature.ParserAcceptsExactly | scripts/sign-contract-activation.py:147-157 | the parser accepts exactly whole encodings of two integers with short-form lengths |
| DerSignature.SignatureRoundTrip | scripts/sign-contract-activation.py:133-157 | all scalars of 256 bits print in the short form, minimally, and parse back |
| DerSignature.ParserAcceptsLongerForms | scripts/sign-contract-activation.py:147-157 | the parser does not insist on the minimal form |
| DerSignature.LowSChoosesOne | scripts/sign-contract-activation.py:224-227 | of a scalar and its complement exactly one is low, and both normalise to it |
| ActivationApprovals.ValidatePolicy | scripts/verify-contract-activation.py:472-507 | accepts exactly valid policies and builds their key dictionary |
| ActivationApprovals.Assemble | scripts/assemble-signed-activation.py:213-273 | the collecting loop, sort, duplicate check and threshold give the specified envelope |
| ActivationApprovals.AssemblyIgnoresOrder | scripts/assemble-signed-activation.py:213-273 | the same approvals in any argument order give the same envelope or none |
| ActivationApprovals.VerifyApprovals | scripts/verify-contract-activation.py:700-732 | the verifier's loop with its previous key accepts exactly the specified approvals |
| ActivationApprovals.AssembledIsAccepted | scripts/verify-contract-activation.py:686-732 | under a valid policy an assembled envelope is accepted if and only if its digest is not zero |
| ActivationApprovals.SignedApprovalsAreAccepted | scripts/sign-contract-activation.py:192-256 | approvals the signer wrote for distinct policy keys, at least the threshold, assemble in every order to one accepted envelope |
| ActivationApprovals.AcceptedMeansThreshold | scripts/verify-contract-activation.py:686-732 | an accepted envelope has at least the threshold of distinct policy keys, never fewer than two, verifying that very digest, with every scalar in range and no s above half the order |
| ActivationChain.SequenceIsPosition | scripts/verify-contract-activation.py:735-758 | position i of a chain carries sequence i |
| ActivationChain.ChainAdvances | scripts/verify-contract-activation.py:735-758 | between any two positions blocks strictly increase and issue times never decrease |
| ActivationChain.EnvelopeStandsForItsActivation | scripts/verify-contract-activation.py:743-747 | the signed envelope of the predecessor is taken exactly when the predecessor itself is |
| ActivationChain.ChainBeginsExactly | scripts/verify-contract-activation.py:735-740 | a first activation stands alone exactly if it has number one |
| ActivationChain.ChainGrowsExactly | scripts/verify-contract-activation.py:735-758 | a chain can be continued by exactly the activations that name its head's digest, have the next number, and are later than all of it |
| ActivationChain.HeadDeterminesHistory | scripts/verify-contract-activation.py:735-758 | with a collision-free digest two chains with equal heads are equal at every position |
| ChecksumManifest.ScanTree | scripts/release-package-integrity.py:70-116 | gives the nodes sorted by name, or refuses unsafe names and kinds |
| ChecksumManifest.SafeExactly | scripts/release-package-integrity.py:49-64 | a path is safe exactly if it is relative, goes up nowhere, names something and has only plain characters |
| ChecksumManifest.WriteManifest | scripts/release-package-integrity.py:218-250 | leaves the tree with exactly the specified manifest in it |
| ChecksumManifest.ParseManifest | scripts/release-package-integrity.py:158-188 | reads exactly the entries the specification reads, refusing duplicates and unsorted names |
| ChecksumManifest.SplitsAtBreak | scripts/release-package-integrity.py:158-165 | the first line break ends the first line, a carriage return with its line feed being one |
| ChecksumManifest.ManifestRoundTrip | scripts/release-package-integrity.py:158-250 | a printed manifest parses to its entries, and the empty one is refused |
| ChecksumManifest.VerifyManifest | scripts/release-package-integrity.py:253-273 | accepts exactly what the specification accepts |
| ChecksumManifest.VerifiesExactly | scripts/release-package-integrity.py:253-273 | verification accepts if and only if the parsed entries are the digests of all other regular files |
| ChecksumManifest.FreshManifestVerifies | scripts/release-package-integrity.py:218-273 | a freshly written manifest verifies if and only if there is a regular file besides it |
| CompanionMailbox.UpsertChangesOne | cli/src/companion_simulator.rs:995-1010 | an upsert changes the one Shot it names, keeps the others and duplicates none |
| CompanionMailbox.EventChangesExactly | cli/src/companion_simulator.rs:913-993 | an event does to the Shot it names what it means and nothing to any other, a whole snapshot replaces all, other events change nothing; only a whole snapshot with a duplicate is refused |
| CompanionMailbox.PushedShotsAreSorted | cli/src/companion_simulator.rs:1003-1009 | pushing an unknown Shot leaves all in order of sort index and identifier |
| CompanionMailbox.PhoneState.ReceivePage | cli/src/companion_simulator.rs:878-897 | the loop over a page leaves the phone folded over all its envelopes, or fails |
| CompanionMailbox.ValidateRouting | companion/src/relay_client.rs:225-276 | accepts exactly pages whose cursors increase strictly from the phone's to the relay's head |
| CompanionMailbox.DurableStateIsTheFold | cli/src/companion_simulator.rs:862-910 | at every point of every run the relay's acknowledged cursor is at most the durable one and never goes back, and the durable state is the paired one folded once and in order over the envelopes up to its cursor |
| CompanionMailbox.RedeliveryIsNeverRefused | companion/src/journal.rs:41-94 | no envelope is ever refused as a replay after crashes, and no poll finds its envelopes pruned |
| CompanionMailbox.ReplayIsRefused | companion/src/journal.rs:41-94 | however much was observed in between, the same sequence is refused always and the same identifier while the window reaches back to it |
| CompanionMailbox.NewIsTaken | companion/src/journal.rs:41-94 | what is new is taken, and remembered with everything before while there is room |
| CompanionMailbox.ServedPageIsValid | companion/src/relay_client.rs:225-276 | the page an honest relay serves passes the phone's validation |
| CompanionMailbox.EnqueuedIsStorableExactly | cli/src/companion_simulator.rs:719-741 | a new command leaves a storable outbox exactly while there is room, under a sequence no queued envelope has |

## Left out

- The engine, protocol and companion crates beyond the contracts stated here: Git, Xcode, gates, envelope cryptography, Keychain, relay HTTP.
- `cancel`, `follow`, notifications, labels, retiring and restoring Shots, projections and read-only views: single-process code that would add only easy members.
- Symlink, permission and bounded-read checks, fsync, `ps` parsing: a durable write is one step that happens or does not, file rename is atomic, and an event append is whole.
- ExecutionStore.Store.CompleteExecution: names the reports instead of spelling them out, and does not model validation evidence or the state-transition receipt.
- RunnerRecovery.AtMostOneLiveRunner: assumes that runners come only from `ensure_background_runner`, that no crash falls between spawning and recording, and that nobody acts on a terminal phase, none of which the code ensures; what holds without is in `RunnerWork` and `RunnerRecord`. A process check is taken to see exactly the runners of this execution.
- RunnerDecisions.SafeExactlyWhenGuarded: a finalization reads record, completion and journal in one step and then writes step by step; an event gets its number in the step that appends it. Hand-started runners and cut hand-offs are outside it and inside `RunnerRecord.RecordKeptExactlyByOrderlyWrites`.
- HarnessBudget.RepairedExactly: which diagnostics are repairable is a parameter; the source looks for fixed phrases in them.
- HarnessBudget.HarnessEndsInTime: one tick reads the clock once, and a killed harness is dead at once; descendants of the harness are not followed.
- Deadlines of `wait_for_device` and the polling interval of `acquire`: time spent waiting is not bounded by the code.
- `recoverable`, `payload`, `input` and `write_operation_once` of the journal: read-only or single-file code.
- JournalAdmission.SuccessIsThePublishedCommand: reads an existing command in one step; its record, payload and inputs are proved immutable, so the order of the reads does not matter.
- ApplicationService.ReturnedReceiptsAgree: one command at a time in one service process, whose claim is that of `CommandClaims`; the derivation of execution identities is a parameter that no other command maps to this one's identity; a durable preparation holds its Shot, its mode and one number for the rest of what it binds. Two service processes on one workspace share no mutex.
- ApplicationService.StateCarriesItsReceipt: a monitor may give up at any time, not only after five errors, so the results hold for every pattern of errors.
- ApplicationService.CompletedMeansLanded: feedback and marketing commands complete without an execution and are outside it; their records are the engine's and `MarketingNotes`.
- Entitlement.EveryRunIsLawful: dates have years of four digits, so that their text sorts by time; the development grant is absent from release builds and from the model.
- CanonicalJson.EqualNormalizes: a floating-point number or any other Python value is one constructor outside the domain; `True` and `1` are different values, as in JSON.
- ActivationChain.HeadDeterminesHistory: the digest is a parameter without collisions, and the remaining shape checks are one predicate of the record.
- ActivationApprovals.ValidatePolicy: the policy's schema, protocol, purpose and timestamp, single checks of constants, are not modelled.
- JsonParser.ParsesValue: the reader is a strict one for canonical text, written down here, after the strict UTF-8 decoding that the script does too; Python's `json.loads`, which the script calls, also reads spacing and other numbers.
- ActivationApprovals.AcceptedMeansThreshold: P-256 verification and key derivation are parameters; key IDs, digests and scalars are numbers rather than their 32-byte hex text.
- ChecksumManifest.VerifiesExactly: file contents do not change during a scan, and the walk visits every node once; that several manifest texts parse to the same entries is not excluded.
- CompanionMailbox.DurableStateIsTheFold: the relay serves its log in order and the sender numbers envelopes upwards without reusing identifiers; receipts and execution notices, which only the process remembers, are events without effect on the durable state.
- CompanionMailbox.ValidateRouting: mailbox identifiers, schema text and the safe-integer range are not modelled.
