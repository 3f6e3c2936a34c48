# Verified model of pi-rlm's run accounting, recovery and checkpoints

This Dafny project models how a pi-rlm run accounts for its work ahead of doing it, how its journal decides what can be
recovered, and how checkpoints and their helpers behave under concurrency and crashes. `dafny verify dfyconfig.toml`
checks everything.

What is modelled, and the main results:

- **Write-ahead accounting** (`Budget`, `Usage`, `Provider`). Operations, child frames and controller turns share one
  ledger and one journal. Each action is one uninterrupted stretch between two awaits, so a sequence of actions is an
  interleaving. `LedgerConservation` shows that reservations and leaves are exactly the outstanding work and bounds the
  token overshoot. `LedgerAgreement` and `LedgerCorrections` show that at every moment the live ledger is the ledger
  that recovery rebuilds from the journal plus an exact correction per attempt, child frame and turn, and when the two
  are equal. `AttemptOutcomes` says what every settlement of every run reports; `AttemptLifecycle` says exactly when an
  attempt, a child frame or a turn is granted and what each leaves when it is undisturbed or fails. `ScopeUsage` and
  `ScopeAcceptance` show what usage a recurse call reports and commits at any nesting depth, which settlements its scopes
  accept, and when a scope outlives its execution. `JournalAcceptance` joins the protocol to the validator: it says
  exactly when recovery accepts an intent, settlement, opening, cell or key binding of the protocol. No limit on attempts,
  calls or turns (`ControllerTurns`) refuses what the ledger granted; the token limit does where the journal tells of more
  tokens than the ledger holds, and `UnchargedRun` is a family of runs in which that happens. By `LawfulRuns` the journal
  of a lawful run is never corrupt.
- **Recovery validator** (`Journal`, `RecoveryJournal`, `ValidationLoops`). The strict fold over the event journal and
  its end checks. `JournalGrammar` says which event may follow a journal, over its events alone. `JournalVerdict`, by way
  of `JournalContents` and `JournalLanguage`, shows that the fold accepts exactly the journals in which every event may
  follow, how such a journal must end, and with which code any other is refused. `FrameTree`, `OperationDiscipline`,
  `OperationOrder` state what an accepted journal is like; `CrashCut` classifies every prefix of one.
- **The independent folds** (`CheckpointRecovery`, `StatusFold`). `FoldAgreement`, `JournalLimits` and
  `CatalogAgreement` show that they agree with the validator and with each other, `DerivedContents` and `StatusContents`
  what they hold of the events.
- **Checkpoints** (`CheckpointStore`, `PrefixHash`). The two-slot store through crashes between any two effects, and the
  single streaming hash that checks every checkpoint event.
- **Supporting protocols.** Concurrent key binding (`KeyBindingProtocol`, `KeyBindingOutcomes`), the run coordinator
  (`Coordination`, `CoordinationSafety`, `CoordinationEffects`, `CoordinationCalls`, `RunCoordinator`), canonical JSON
  (`JsonKeys`, `CanonicalJson`, `JsonText`, `StreamedJson`), retention selection (`RetentionPolicy`), paging
  (`RunInspection`) and UTF-8 truncation (`Preview`).

Conventions: identifiers that the program concatenates or hashes are datatypes, which stands for texts that can be taken
apart again and for hashes without collisions. Costs are exact numbers. Time is an argument. Journal appends are
atomic; each may fail before or after the event is durable. The semaphore is counted by the permits that attempts hold.
`LawfulRuns` writes each event when it is handed to the journal; a queue that makes events durable in that order holds a
prefix of such a journal at any moment, and every prefix of a journal that folds folds (`PrefixFolds`).

## Where the code differs from what one would expect

- `src/shell/canonical-json.ts` writes object keys in code unit order, `canonicalStringify` lists array indexes first.
  A checkpoint payload is stored with the first and accepted back only if it equals the second. `StreamedIsCanonical`
  gives the exact condition under which they agree and `StoredThenAccepted` concludes when a payload is accepted back;
  `NumericKeysDisagree` is an object that is not.
- A usage scope does not live only while its execution is in flight: `ScopeOutlivesExecution` says exactly when it is
  left behind, and by `IdleScopes` that is exactly when, with nothing executing, scopes keep a checkpoint from being
  taken. Opening the call again wipes the scope, and so does an attempt at it that is refused and executes nothing
  (`RefusalWipesScope`). A settlement of the earlier execution that arrives after the call opened again is reported by
  the later one (`LateSettlementIsReported`); `ReportedUsage` has the exact sum, `ReportIsSubtreeTotal` when it is the
  subtree's.
- The status projection deduplicates cells and calls only of frames it knows. `ReplayFoldsOnce` says exactly when a
  replay changes nothing; `ReplayBeforeOpeningFolds` is a journal on which it does.
- A failure between reservation and intent leaves the attempt counted without any event (`StoppedAfterReserve`). Should
  the same operation make another attempt, its ordinal no longer continues where the journal stands (`StopLeavesGap`),
  and recovery refuses its intent as corrupt (`OutOfOrderIsRefused`).
- A response may report six million input and six million output tokens without a total. It passes, is never charged,
  and is settled all the same (`TwelveMillionTokensUncharged`); `AccountingFailsExactly` has the exact condition. Under
  a token limit the ledger then grants attempts whose intents recovery refuses as corrupt: `GrantedButRefused` is a run
  in which a limit of thirteen million tokens grants five and recovery refuses them.
- So a granted intent can be refused for the order of its operation's attempts and for the tokens of the journal.
  `IntentAccepted` has the exact condition, over every run.
- The usage of a delegated call is not compared with its own total before it is settled, as a model response's is.
  Recovery refuses a settlement whose parts exceed its total (`PartsAboveTotalAreRefused`, `SettlementAccepted`). The one
  caller reports the sum of the parts as the total (`src/runtime/agent-call.ts:282-294`).
- A preview's omitted bytes are three too many for each slice that begins with U+FEFF (`HeadTailPreview`).

## Model

| member | source | states |
|---|---|---|
| `Usage.NormalizeCallUsage` | src/core/usage.ts:65-104 | A usage is accepted unchanged exactly when every field is a bounded integer, or a bounded cost, within its limit. |
| `Usage.AddUsageExact` | src/core/usage.ts:106-143 | Checked addition succeeds exactly when both operands and their unbounded sum are within limits, and is then that sum; absent fields stay absent. |
| `Usage.AccumulateExact` | src/core/usage.ts:116-143 | Accumulating any list left to right succeeds exactly when every summand and the grand total are within limits, and yields the grand total. |
| `Usage.AccumulateOrderIndependent` | src/runtime/provider.ts:410-422 | The order in which concurrent settlements are accumulated decides neither success nor the sum. |
| `LedgerConservation.ReserveIsExact` | src/runtime/provider.ts:391-408 | A granted reservation adds one attempt, its tokens and, once per operation, one logical call; used plus reserved tokens stay within the limit. |
| `LedgerConservation.FreeIsExact` | src/runtime/provider.ts:535-542 | Giving back a held reservation always succeeds and changes nothing but the reserved tokens. |
| `LedgerConservation.AccountIsExact` | src/runtime/provider.ts:486-495 | Accounting always removes the reservation and adds either exactly the reported usage or nothing. |
| `LedgerConservation.AccountingFailsExactly` | src/core/budget.ts:125-169 | For a usage within one call's limits accounting fails if and only if its parts exceed its total, or one call's limit where it gives no total, or a ledger column would leave the safe integers. |
| `LedgerConservation.OwnedUsageAccepted` | src/runtime/provider.ts:270-278 | A response's usage passes if and only if it is one call's and its parts do not exceed its total, and then counts as one attempt. |
| `LedgerConservation.OwnedUsageFails` | src/runtime/provider.ts:270-278 | A response's accepted usage cannot be charged to a ledger with room exactly when it gives no total and its parts exceed one call's limit. |
| `LedgerConservation.RunKeepsLedger` | src/runtime/provider.ts:497-607 | On every interleaving the ledger is its start plus the sum of what each attempt, child and turn holds; permits never exceed the concurrency limit. |
| `LedgerConservation.TokenOvershootBounded` | src/core/budget.ts:101-169 | In every reachable state used tokens exceed the token limit by at most one maximal call per concurrent permit. |
| `LedgerConservation.ReservationsConserved` | src/runtime/provider.ts:511-607 | Reserved tokens are the sum over attempts neither accounted nor given back, active leaves the attempts holding one; with authority open these are exactly the unfinished attempts. |
| `LedgerConservation.LeavesNeverSaturateOrUnderflow` | src/core/budget.ts:184-190 | A permit holder never sees "saturated", and releasing a held leaf never meets the clamp at zero. |
| `LedgerAgreement.WriteIntentKeepsJournal` | src/runtime/provider.ts:424-458 | A durable intent moves the rebuilt ledger by exactly the item's journal part. |
| `LedgerAgreement.WriteSettlementKeepsJournal` | src/runtime/provider.ts:460-484 | A durable settlement turns the rebuilt reservation into the settled usage. |
| `LedgerAgreement.ReserveChildKeepsJournal` | src/runtime/frame.ts:423-435 | The next ordinal of a recurse call names a frame that neither the journal nor any reservation stands for. |
| `LedgerAgreement.CommitCellKeepsJournal` | src/runtime/frame.ts:355-367 | A committed cell counts one turn in the rebuilt ledger, once. |
| `LedgerAgreement.BindingDerives` | src/runtime/checkpoint-recovery.ts:182-192 | A binding consistent with the journal never contradicts the rebuilt key registry. |
| `LedgerAgreement.ApplyKeepsJournal` | src/runtime/provider.ts:391-607 | Every action keeps the rebuilt ledger equal to its base plus the journal parts of all items. |
| `LedgerCorrections.SourcesHold` | src/runtime/checkpoint-recovery.ts:151-218 | Every intent, key, cell and child frame that recovery rebuilds stems from an event of the journal. |
| `LedgerCorrections.LedgerEqualsJournalPlusCorrections` | src/runtime/provider.ts:391-495 | After any interleaving recovery can rebuild a ledger, and the live ledger equals it plus exactly the corrections of the items. |
| `LedgerCorrections.QuiescentLedgerIsRebuilt` | src/runtime/checkpoint-recovery.ts:119-233 | When every item ended the ordinary way, the rebuilt ledger is the live ledger in every column. |
| `LedgerCorrections.CountersExceedByUnjournaled` | src/runtime/frame.ts:125-158 | Attempts, frames and turns exceed the rebuilt ones by exactly the unintended attempts, unopened children and turns without a cell; turns agree if and only if every turn committed its cell. |
| `LedgerCorrections.StoppedAfterReserve` | src/runtime/provider.ts:520-543 | A stop between reservation and intent keeps the attempt and its logical call counted, writes nothing and gives everything else back. |
| `LedgerCorrections.SettlementCarriesUsageAnyway` | src/runtime/provider.ts:577-594 | The settlement carries the reported usage in any case; the ledger charges it whole, or only gets the reservation back and the outcome is an invalid result, for a usage within one call's limits exactly when it is unchargeable. |
| `LedgerCorrections.TwelveMillionTokensUncharged` | src/runtime/provider.ts:270-278 | Twelve million tokens reported without a total are accepted, settled in the journal and never charged. |
| `AttemptLifecycle.ReserveExactly` | src/core/budget.ts:90-121 | A reservation is granted if and only if the deadline has not passed and calls, attempts and tokens are within their limits with it. |
| `AttemptLifecycle.AttemptGranted` | src/runtime/provider.ts:511-520 | In every run an attempt takes something from the budget if and only if a permit is free, its operation is not poisoned, the budget has room and nothing stopped it before. |
| `AttemptLifecycle.UndisturbedAttempt` | src/runtime/provider.ts:497-607 | In every run a granted, undisturbed attempt writes exactly its intent and its settlement and leaves in ledger, operation and items exactly the attempt, a new operation's call and the usage that can be charged. |
| `AttemptLifecycle.FailedIntent` | src/runtime/provider.ts:424-458 | An intent whose append fails, durably or not, poisons its operation and keeps only the attempt and its call counted. |
| `AttemptLifecycle.EndWithoutAuthority` | src/runtime/provider.ts:551-577 | An effect that ends without authority is neither charged nor settled and gives back its permit alone. |
| `AttemptLifecycle.UndisturbedChild` | src/runtime/frame.ts:420-435 | A child frame is granted if and only if the budget has a call, a frame and a level for it, and is then opened under the call's next ordinal. |
| `AttemptLifecycle.UndisturbedTurn` | src/runtime/frame.ts:120-145 | A turn is granted if and only if it was not taken before and the budget has one left; its controller operation can start and its cell is written. |
| `AttemptLifecycle.NewOperationContinues` | src/runtime/provider.ts:353-359 | A new operation whose ordinal counts the journal's intents continues there exactly if the last attempt settled under its kind and key. |
| `AttemptLifecycle.RetryContinues` | src/runtime/provider.ts:391-408 | After an undisturbed attempt the operation is in order for the next one, unless it is an agent's. |
| `AttemptOutcomes.AggregateIsSum` | src/runtime/provider.ts:410-422 | In every run an operation's sum is that of the usages charged for it that fitted, in the order in which its effects ended. |
| `AttemptOutcomes.SettlementReports` | src/runtime/provider.ts:549-594 | In every run each written settlement carries its effect's usage, and its effect's outcome if the usage was charged and the operation's sum fits, else an invalid result. |
| `JournalAcceptance.TiedAt` | src/runtime/checkpoint-recovery.ts:151-218 | At every moment the strict fold counts no more attempts, calls and frames than the ledger granted, in turns exactly those with a cell, and in tokens exactly the ledger's less the corrections of the attempts. |
| `JournalAcceptance.OrderIsAttemptOrder` | src/runtime/run-recovery-journal.ts:354-372 | The validator's demands on the next attempt are met exactly when each attempt the operation counted has its intent in the journal, of the same kind and key, and the last one settled. |
| `JournalAcceptance.GrantedIsAllowed` | src/runtime/run-recovery-journal.ts:296-309 | What the ledger grants an attempt, the manifest's attempt, call and token limits allow if and only if the tokens that the journal tells of leave room for it. |
| `JournalAcceptance.IntentAccepted` | src/runtime/provider.ts:391-458 | The validator accepts a granted attempt's intent if and only if the journal authorizes it, its operation continues where the journal stands, and the journal has room for its tokens; no limit on attempts, calls or turns ever refuses it. |
| `JournalAcceptance.NoRoomIsRefused` | src/runtime/run-recovery-journal.ts:303-309 | Without that room the intent is refused, whatever else holds. |
| `JournalAcceptance.InStepHasRoom` | src/runtime/provider.ts:391-408 | The room is there whenever every attempt's accounting agrees with what the journal tells of it. |
| `UnchargedRun.GrantedButRefused` | src/runtime/run-recovery-journal.ts:303-309 | After a response of twelve million tokens without a total, the ledger grants any tokens within the limit, and recovery accepts the intent if and only if the limit has room for twelve million more. |
| `ControllerTurns.TurnsTiedAt` | src/runtime/frame.ts:125-140 | At every moment each controller operation, in the journal or about to be, belongs to a committed cell or an open turn, and cells and open turns are within the limit. |
| `ControllerTurns.ControllersWithinLimit` | src/runtime/run-recovery-journal.ts:317-328 | So the validator's limit of controller operations never refuses one that was made for a reserved turn. |
| `ControllerTurns.CheckpointLaunches` | src/runtime/checkpoint-recovery.ts:361-369 | A run resumed from a checkpoint whose ledger recovery accepts starts like the run before it: every controller operation of its journal has its cell. |
| `JournalAcceptance.SettlementAccepted` | src/runtime/run-recovery-journal.ts:381-411 | The validator accepts an unsettled attempt's settlement if and only if its frame is open, its parts do not exceed its total and its sums fit. |
| `JournalAcceptance.SumsFit` | src/core/usage.ts:106-143 | Under at most a million attempts no sum of settlements overflows. |
| `JournalAcceptance.PartsAboveTotalAreRefused` | src/runtime/provider.ts:730-741 | A usage whose parts exceed its total passes as a call's usage, and its settlement is refused. |
| `JournalAcceptance.OpeningAccepted` | src/runtime/frame.ts:423-435 | The validator accepts a granted child frame's opening if and only if its parent is open, one level above it. |
| `JournalAcceptance.CellAccepted` | src/runtime/frame.ts:355-367 | The validator accepts a reserved turn's cell if and only if it is its open frame's next one and reports its controller's usage. |
| `JournalAcceptance.BindingAccepted` | src/runtime/run-recovery-journal.ts:286-288 | The validator accepts the first binding of a key if and only if its frame is open. |
| `LawfulRuns.LawfulJournalFolds` | src/runtime/run-recovery-journal.ts:212-513 | The journal of a lawful run, in which each attempt begins in order, authorized and with room in the journal, folds at every moment of every interleaving, and what is unresolved in it is exactly the attempts without a written settlement. |
| `LawfulRuns.LawfulJournalRecovers` | src/runtime/run-recovery-journal.ts:515-559 | Once every cell has its workspace and answer, such a journal is accepted if no attempt is outstanding and ambiguous if one is, never corrupt. |
| `LawfulRuns.StopLeavesGap` | src/runtime/provider.ts:520-543 | After a stop between reservation and intent the operation no longer continues where the journal stands. |
| `LawfulRuns.OutOfOrderIsRefused` | src/runtime/run-recovery-journal.ts:354-363 | The granted intent of an operation that does not continue where the journal stands is refused, in every run. |
| `ScopeUsage.ScopesNameExecutions` | src/runtime/frame.ts:440-448 | A call in a frame's scopes is executed by the frame or one of its ancestors. |
| `ScopeUsage.ExecutionsAreScopes` | src/runtime/frame.ts:440-448 | Every call that a frame or one of its ancestors executes is in its scopes. |
| `ScopeUsage.RunKeepsSound` | src/runtime/provider.ts:410-422 | On every interleaving the scope of an execution in flight has accumulated every accepted usage in scope since it opened. |
| `ScopeUsage.ReportedUsage` | src/runtime/frame.ts:430-479 | The usage an execution would report is the sum of what its frame and every frame below it settled, plus late settlements of earlier executions of the call. |
| `ScopeUsage.ReportIsSubtreeTotal` | src/runtime/frame.ts:459-479 | When accounting accepted everything below, the report is the sum of all settlements of the subtree, at any depth, if and only if no earlier execution of the call settled late since the opening. |
| `ScopeUsage.CommittedUsage` | src/runtime/frame.ts:459-479 | In every run each committed recurse call carries the sum of what its frame and every frame below it had settled when it was read, plus late settlements of earlier executions. |
| `ScopeUsage.CommittedIsSubtreeTotal` | src/runtime/frame.ts:459-479 | It is the sum of all settlements of the run in that frame and below, at any depth, if all were accepted, none was late and none comes after the reading. |
| `ScopeAcceptance.ScopeHolds` | src/runtime/provider.ts:410-422 | In every run the scope of every call, executing or not, holds the sum of the accepted usages in its scope since it was last opened, ended or refused. |
| `ScopeAcceptance.AcceptedExactly` | src/runtime/provider.ts:410-422 | In every run a settlement is accepted if and only if the operation's sum is and, for each scope of its frame, the usage and its sum with what the scope holds are within limits; it is then added to each of them, else to none. |
| `ScopeAcceptance.EverySettlementAccepted` | src/core/usage.ts:106-143 | A run of at most a million plausible settlements has every one accepted. |
| `ScopeAcceptance.PlausibleCommitIsTotal` | src/runtime/frame.ts:459-479 | In such a run a committed recurse call carries the sum of everything settled in its frame and below, at any depth, if none of it comes after the reading and nothing was late. |
| `ScopeAcceptance.PlausibleReportIsTotal` | src/runtime/frame.ts:430-479 | In such a run an execution reports exactly that sum if and only if nothing was late. |
| `ScopeAcceptance.UndisturbedExecution` | src/runtime/frame.ts:420-488 | From every reachable state an undisturbed execution commits the sum of its own settlements and leaves neither scope nor execution behind. |
| `ScopeUsage.ScopeOutlivesExecution` | src/runtime/provider.ts:410-422 | A call has a usage scope exactly while it is executing, or after a settlement in its scope was accepted when it was not executing and it has been neither executed nor refused since. |
| `ScopeUsage.IdleScopes` | src/runtime/checkpoint-persistence.ts:94-109 | With nothing executing, no scope stands in the way of a checkpoint exactly when no such settlement was left behind. |
| `ScopeUsage.LateSettlementRecreatesScope` | src/runtime/provider.ts:414-420 | A settlement after the execution ended brings its deleted scope back, for any accepted usage. |
| `ScopeUsage.RefusalWipesScope` | src/runtime/frame.ts:422-488 | A refused attempt of the call deletes such a scope although nothing executes. |
| `ScopeUsage.LateSettlementIsReported` | src/runtime/frame.ts:430-479 | A settlement of an earlier execution after the call opened again is reported, although the execution itself settled nothing. |
| `RecoveryJournal.PrefixFolds` | src/runtime/run-recovery-journal.ts:212-221 | Every prefix of a journal that folds also folds, and only its last event can be a terminal. |
| `ValidationLoops.ValidateRecoveryJournal` | src/runtime/run-recovery-journal.ts:154-559 | The loop over the events returns what fold and end checks decide, with the first refusal's code; what that is over the events, the next rows say. |
| `JournalVerdict.AcceptedExactly` | src/runtime/run-recovery-journal.ts:154-559 | Recovery accepts a journal if and only if it begins once with its manifest's start, every event may follow those before it, cells and workspaces are complete, every intent has its settlement, and a terminal is not refused; the model it returns is the journal's. |
| `JournalVerdict.StartVerdict` | src/runtime/run-recovery-journal.ts:160-185 | The one start event is compared with the manifest's; a missing or second one is corruption, another one an identity mismatch. |
| `JournalVerdict.FoldVerdict` | src/runtime/run-recovery-journal.ts:212-513 | The fold accepts exactly the journals in which every event may follow, and refuses any other for its first that may not, as an identity mismatch if that names another run, manifest or root, else as corruption. |
| `JournalVerdict.FinishVerdict` | src/runtime/run-recovery-journal.ts:515-559 | Of such a journal, over its events: when it is corrupt, when its terminal is inconsistent, when it is ambiguous, and when it is accepted. |
| `JournalVerdict.TerminalVerdict` | src/runtime/run-recovery-journal.ts:531-545 | A terminal is refused exactly if a frame is open, if a completion lacks the bijection of executions, or if it disagrees with how the root was closed and answered, each with its code. |
| `JournalContents.FoldTells` | src/runtime/run-recovery-journal.ts:190-513 | Every entry of the fold's state stands for events of the journal, and every event has its entry. |
| `ValidationLoops.GroupChildren` | src/runtime/run-recovery-journal.ts:125-136 | Grouping fails exactly when some child frame does not name a closed recurse execution; otherwise each group holds exactly its ordinals. |
| `ValidationLoops.MatchExecutions` | src/runtime/run-recovery-journal.ts:137-149 | A recurse call passes exactly when its child frames are executions 1..n, each from the call's frame and answered exactly when the call succeeded. |
| `ValidationLoops.ValidateRecurseExecutionBijection` | src/runtime/run-recovery-journal.ts:120-151 | The loops accept exactly when child frames and recurse executions are in bijection. |
| `FrameTree.FramesFormOneTree` | src/runtime/run-recovery-journal.ts:205-244 | At every prefix the frames are one tree rooted at f0, depth is the distance from the root and at most maxDepth, and open frames are closed under ancestors. |
| `FrameTree.OpenAncestors` | src/runtime/run-recovery-journal.ts:483-490 | While a frame is open so is every frame above it; a closed frame's subtree is closed. |
| `FrameTree.CheckpointIsQuiescent` | src/runtime/run-recovery-journal.ts:413-436 | At an accepted checkpoint only the root is open, and execution n of a recurse call is a frame exactly for n = 1..number of committed executions, with matching parent and outcome. |
| `FrameTree.RepeatedOpening` | src/runtime/run-recovery-journal.ts:222-228 | An exact repetition of an opening is accepted without effect even after closure; any other is refused. |
| `OperationOrder.AttemptsAreContiguous` | src/runtime/run-recovery-journal.ts:354-361 | For each frame and operation the attempts are 1, 2, 3, ... under one kind and key. |
| `OperationOrder.SettlementsAnswerIntents` | src/runtime/run-recovery-journal.ts:387-395 | Each settlement answers exactly one intent, an earlier one of the same frame; no other intent or settlement carries the id. |
| `OperationOrder.SettledBeforeNextAttempt` | src/runtime/run-recovery-journal.ts:362-363 | An attempt settles before the next attempt of its operation is intended. |
| `OperationOrder.EarlierAttemptsSettled` | src/runtime/run-recovery-journal.ts:359-363 | When an attempt is intended, every earlier attempt of its operation has settled. |
| `OperationOrder.ReservationsAreOutstanding` | src/runtime/run-recovery-journal.ts:303-404 | The running token reservation is the sum over unsettled attempts. |
| `OperationOrder.AcceptedJournalSettlesEverything` | src/runtime/run-recovery-journal.ts:546-549 | In an accepted journal every intent has exactly one settlement, a later one of the same frame, no other event carries its id, and reservations end at zero. |
| `OperationOrder.LastSegmentUsage` | src/runtime/run-recovery-journal.ts:364-411 | An operation's last segment holds its last logical call and, once complete, the exact sum of its settlements. |
| `OperationOrder.CommittedCallUsage` | src/runtime/run-recovery-journal.ts:437-463 | A newly committed llm or agent call reports exactly the settlements of its last logical call, all settled. |
| `OperationOrder.CommittedCellUsage` | src/runtime/run-recovery-journal.ts:264-280 | A newly committed cell reports exactly what its controller operation settled. |
| `CrashCut.CrashCutVerdict` | src/runtime/run-recovery-journal.ts:212-549 | Every proper nonempty prefix of an accepted journal is corrupt exactly when it separates an output-bearing cell from its answer, else ambiguous exactly when an intent is unsettled, else accepted. |
| `CheckpointRecovery.DeriveJournalState` | src/runtime/checkpoint-recovery.ts:119-233 | The single pass over the events computes the rebuilt state, or nothing when some event cannot be rebuilt. |
| `DerivedContents.DerivedWorkspace` | src/runtime/checkpoint-recovery.ts:178-181 | The rebuilt workspace is the root's one of greatest iteration. |
| `DerivedContents.DerivedCells` | src/runtime/checkpoint-recovery.ts:169-177 | The rebuilt root cell of an iteration is the first one committed for it. |
| `DerivedContents.DerivedOrdinals` | src/runtime/checkpoint-recovery.ts:193-205 | An operation's agent attempts are the number of its agent intents, its attempts the number of its last intent. |
| `DerivedContents.DerivedExecutions` | src/runtime/checkpoint-recovery.ts:153-168 | A recurse call's rebuilt ordinal is the greatest of its child frames. |
| `DerivedContents.DerivedKeys` | src/runtime/checkpoint-recovery.ts:182-192 | Every key is rebuilt with the one identity of all its bindings. |
| `DerivedContents.DerivedCalls` | src/runtime/checkpoint-recovery.ts:212-214 | Of each call the last commitment counts. |
| `CheckpointRecovery.CaptureFrames` | src/runtime/checkpoint-persistence.ts:34-54 | The capturing pass computes the captured catalog: last opening, greatest iteration. |
| `CheckpointRecovery.RecoverFrames` | src/runtime/checkpoint-recovery.ts:63-87 | The recovering pass computes the recovered catalog: first opening, distinct iterations. |
| `FoldAgreement.DerivedStateAgrees` | src/runtime/checkpoint-recovery.ts:151-218 | At every prefix that folds, rebuilding succeeds exactly when every child frame names a recurse execution, and its counters, cells, keys, intents and calls are then the validator's. |
| `FoldAgreement.CheckpointOrdinals` | src/runtime/checkpoint-recovery.ts:153-167 | At a checkpoint the rebuilt recurse ordinals, computed as maxima, are the execution counts. |
| `JournalLimits.DerivedStateWithinManifest` | src/runtime/checkpoint-recovery.ts:136-218 | At every prefix the rebuilt attempts, logical calls, child frames and turns equal what the journal contains and obey the manifest. |
| `JournalLimits.DerivedAttemptsCountIntents` | src/runtime/checkpoint-recovery.ts:193-205 | The rebuilt attempt ordinal of an operation is the number of its intents. |
| `StatusFold.ReduceStatusLoop` | src/core/journal.ts:196-369 | The loop over the events computes the status projection. |
| `StatusFold.ReplayFoldsOnce` | src/core/journal.ts:244-302 | Appending a cell, call or progress effect again changes nothing exactly when an earlier event had its identity and its frame was known then, or is still unknown. |
| `StatusFold.ReplayBeforeOpeningFolds` | src/core/journal.ts:284-294 | A cell before its frame's opening is folded by its replay and not by itself. |
| `StatusContents.ProjectedEnding` | src/core/journal.ts:313-334 | The projection ends as the first terminal says, whatever follows; without one the run is running. |
| `StatusContents.ProjectedFrame` | src/core/journal.ts:216-294 | Of a journal that folds, a frame shows the phase of greatest ordinal of its latest committed cell that has phases, and the output of its latest committed cell. |
| `StatusContents.ProjectedCalls` | src/core/journal.ts:295-302 | A frame shows how many calls were first committed in it. |
| `StatusContents.ProjectedOpening` | src/core/journal.ts:229-243 | Every frame is projected as it was first opened. |
| `StatusContents.ProjectedKey` | src/core/journal.ts:272-283 | Every key is projected as it was first bound. |
| `CatalogAgreement.CatalogsAreTheFrames` | src/runtime/checkpoint-persistence.ts:34-54 | At every prefix both catalogs are undefined exactly when a frame has no lineage, and otherwise equal and the validator's frames. |
| `CatalogAgreement.StatusTotals` | src/core/journal.ts:284-311 | The projection's iterations and committed calls sum up to the strict fold's. |
| `CatalogAgreement.AcceptedTotals` | src/runtime/run-recovery-journal.ts:551-558 | The committed cells and calls of an accepted journal are the projection's totals. |
| `CheckpointStore.NewestCheckpointSurvives` | src/runtime/checkpoint-store.ts:200-250 | After any publications, failures, retries and crashes, and one more crash at that moment, the newest durable event has sequence n and finds exactly its payload in slot n mod 2. |
| `CheckpointStore.PublicationSucceeds` | src/runtime/checkpoint-store.ts:199-237 | From every reachable idle state an undisturbed publication of any payload within the limit stores it under the next sequence, writes exactly its event, and leaves the checkpoint before it readable. |
| `CheckpointStore.FailureCleansUp` | src/runtime/checkpoint-store.ts:237-250 | A failure at any point leaves no pending file and no event, and the store idle. |
| `CheckpointStore.CrashTearsPending` | src/runtime/checkpoint-store.ts:174-194 | Until the pending file is synchronized, a crash may leave any text in it that is no longer. |
| `CheckpointStore.CrashUndoesRename` | src/runtime/checkpoint-store.ts:218-222 | Until the directory is synchronized, a crash may undo the rename or keep it. |
| `CheckpointStore.AppendKeepsSound` | src/runtime/checkpoint-persistence.ts:198-231 | Giving an event authority is safe because its payload is durable in the other slot first, whether or not the append turns out durable. |
| `CheckpointStore.RenameKeepsSound` | src/runtime/checkpoint-store.ts:219-222 | Renaming replaces only the slot without authority. |
| `CheckpointStore.StorageBounded` | src/runtime/checkpoint-store.ts:128-147 | In every directory state a crash can leave there are at most three entries and three payload limits of bytes. |
| `CheckpointStore.CapacityNeverDeclines` | src/runtime/checkpoint-store.ts:209-213 | The entry and byte test before publishing never declines. |
| `CheckpointStore.InspectEntries` | src/runtime/checkpoint-store.ts:128-147 | A listing is accepted exactly when it has at most three bounded entries; the total is exact and the aggregate test cannot fail by itself. |
| `CheckpointStore.Read` | src/runtime/checkpoint-store.ts:252-285 | A chunked read succeeds exactly when the whole file is the referenced payload within its bounds and no read comes back empty before its end; it then returns it, however short the reads. |
| `PrefixHash.PrefixDigests` | src/runtime/checkpoint-recovery.ts:445-461 | One pass with copied digests remembers for every requested prefix the digest of hashing it from scratch, for any chunking. |
| `PrefixHash.ValidateEveryCheckpointEvent` | src/runtime/checkpoint-recovery.ts:439-480 | The streaming validator accepts exactly the journals whose every checkpoint event binds its own prefix, bound and root cell and is named after the hash of its other fields. |
| `KeyBindingProtocol.Requests` | src/runtime/broker.ts:110-119 | The claims of one call collapse to distinct ids; they are refused exactly when one id comes with two identities. |
| `KeyBindingProtocol.Refusal` | src/runtime/broker.ts:124-131 | A check refuses exactly when a claim meets another identity or a durably failed binding. |
| `KeyBindingProtocol.InstallAt` | src/runtime/broker.ts:139-154 | Installing makes every addition a pending binding of the call and leaves every other binding. |
| `KeyBindingProtocol.WithdrawAt` | src/runtime/broker.ts:176-184 | A failure withdraws exactly the call's remaining bindings; the identity test never spares one. |
| `KeyBindingProtocol.RunKeepsValid` | src/runtime/broker.ts:121-191 | Every interleaving of calls, appends and failures keeps registry and journal consistent. |
| `KeyBindingProtocol.JournalBindsOnce` | src/runtime/broker.ts:109-192 | The journal never holds two bindings of one registry id. |
| `KeyBindingProtocol.ReturnedCallsAgree` | src/runtime/broker.ts:109-192 | A call that returned has every claim durable under its own identity, so two such calls agree on every shared id. |
| `KeyBindingProtocol.WaitersAreServed` | src/runtime/broker.ts:133-136 | Whatever a waiting call awaits is settled or belongs to a call that is appending, which never waits. |
| `KeyBindingOutcomes.CheckVerdict` | src/runtime/broker.ts:121-154 | A check fails the call for its first refused claim, else waits for what others have pending, else returns when all claims are durable, else installs exactly the claims with free keys. |
| `KeyBindingOutcomes.WakeVerdict` | src/runtime/broker.ts:133-136 | A waiting call checks again as soon as everything it awaits is durable, and not before. |
| `KeyBindingOutcomes.FailedAppend` | src/runtime/broker.ts:172-187 | A failed append fails its call and withdraws its bindings from there on, but keeps the one whose event is durable, as failed. |
| `KeyBindingOutcomes.FailedForCause` | src/runtime/broker.ts:109-192 | In every run a call has failed with an error if and only if some action failed it for that cause. |
| `KeyBindingOutcomes.IdentityChangedForCause` | src/runtime/broker.ts:111-128 | In every run a call fails with a changed identity if and only if its own claims conflict or a check finds its first refused key under another identity, never because of a call it awaits. |
| `KeyBindingOutcomes.AloneReturns` | src/runtime/broker.ts:109-192 | In every run an undisturbed call whose claims can be bound returns, having appended exactly its claims with free keys, once each and in order; all claims are then durable and nothing else changed. |
| `JsonKeys.UnitsLessTotal` | src/core/json.ts:102-102 | Code unit order compares any two keys in exactly one way: before, equal or after. |
| `JsonKeys.KeyLessTransitive` | src/core/json.ts:101-108 | Enumeration order is transitive, so with the next row a strict total order. |
| `JsonKeys.KeyLessTotal` | src/core/json.ts:101-108 | Enumeration order, array indexes by value before all other keys, compares any two keys in exactly one way. |
| `CanonicalJson.OrderedSorts` | src/core/json.ts:101-108 | Filling a record in sorted order enumerates the same entries in strictly increasing key order. |
| `CanonicalJson.CanonicalizeIsCanon` | src/core/json.ts:97-111 | Canonicalization fails exactly on values nested deeper than 100 levels and otherwise yields the canonical value. |
| `CanonicalJson.CanonIdempotent` | src/core/json.ts:113-114 | Canonicalizing twice changes nothing. |
| `CanonicalJson.SameThenCanonEqual` | src/core/json.ts:116-117 | Values equal up to key order at every level have the same canonical value. |
| `CanonicalJson.CanonEqualThenSame` | src/core/json.ts:116-117 | Values with the same canonical value are equal up to key order. |
| `JsonText.ParseText` | src/core/json.ts:116-117 | Reading a value's text, escapes and surrogates included, gives back the value and leaves exactly what follows. |
| `JsonText.StringifyFailsOnDepth` | src/core/json.ts:97-117 | Canonical text exists exactly for values within the depth limit. |
| `JsonText.CanonicalTextIsIdentity` | src/core/json.ts:116-117 | Two values have the same canonical text if and only if they are equal up to object key order. |
| `JsonText.CanonicalTextReadsBack` | src/runtime/checkpoint-recovery.ts:235-251 | Canonical text reads back to the canonical value, whose own canonical text is the same. |
| `StreamedJson.StreamedIsCanonical` | src/shell/canonical-json.ts:64-132 | The streamed text is the canonical text if and only if code unit order and enumeration order agree on the keys of every object inside. |
| `StreamedJson.StoredThenAccepted` | src/runtime/checkpoint-recovery.ts:40-47 | Recovery accepts a stored payload back if and only if the two key orders agree in every object inside it. |
| `StreamedJson.PlainKeysAgree` | src/shell/canonical-json.ts:108-127 | They agree on every object without array-index keys. |
| `StreamedJson.NumericKeysDisagree` | src/runtime/checkpoint-recovery.ts:40-47 | The object with the keys "10" and "9" is stored, and recovery does not accept it back. |
| `CoordinationSafety.RegistryInvariant` | src/extension/run-coordinator.ts:185-338 | After any calls every alias leads to a retained run bearing it, active and recent are disjoint with at most 16 and 32 runs, and an active run nobody cancels belongs to the current session and generation. |
| `CoordinationSafety.AliasOwnerStable` | src/extension/run-coordinator.ts:247-300 | An alias never changes its owner until the owner is evicted. |
| `CoordinationSafety.TerminalNeverChanges` | src/extension/run-coordinator.ts:258-277 | A terminal projection, a requested cancellation and a bound run id never change. |
| `CoordinationSafety.CancelEachSteps` | src/extension/run-coordinator.ts:322-330 | Cancelling by each run's own control reaches every active run. |
| `CoordinationSafety.SessionSteps` | src/extension/run-coordinator.ts:315-333 | The session changes only when every active run is being cancelled. |
| `CoordinationSafety.EvictKeeps` | src/extension/run-coordinator.ts:270-274 | Evicting the oldest terminal run frees exactly the names that point to it. |
| `CoordinationEffects.RefreshEffect` | src/extension/run-coordinator.ts:196-214 | A refresh takes over the newer progress, adopts a run id at most once, and marks a conflict exactly when the source contradicts the run even then; all other runs and all aliases stay. |
| `CoordinationEffects.NotifyIdempotent` | src/extension/run-coordinator.ts:235-245 | Notifying subscribers twice of the same reports is notifying them once. |
| `CoordinationEffects.EvictEffect` | src/extension/run-coordinator.ts:270-274 | Eviction keeps the 32 latest ended runs and forgets names of the others only. |
| `CoordinationCalls.OwnedExactly` | src/extension/run-coordinator.ts:279-282 | A retained run is held by its own control and by no other. |
| `CoordinationCalls.SetSessionEffect` | src/extension/run-coordinator.ts:315-327 | Each refusal occurs exactly for its cause and changes nothing; otherwise the session is current, earlier generations are spent, and a new generation cancels every active run. |
| `CoordinationCalls.InvalidateSessionEffect` | src/extension/run-coordinator.ts:328-333 | Every active run is cancelled and the current generation is spent. |
| `CoordinationCalls.CreateEffect` | src/extension/run-coordinator.ts:334-435 | Each refusal occurs exactly for its cause and changes nothing; otherwise the new run is the last active one under the first usable id, cancelled at once if its owner has gone. |
| `CoordinationCalls.HandleEffect` | src/extension/run-coordinator.ts:376-431 | Only the holder of a run's control is heard; every request has its effect, and an ended run takes none. |
| `CoordinationCalls.CancelLocalEffect` | src/extension/run-coordinator.ts:446-451 | A local id cancels its own run, any other name nothing. |
| `RunCoordinator.Coordinator.Refresh` | src/extension/run-coordinator.ts:196-214 | In place: newer progress, one run id, a conflict exactly when the source contradicts the run; an unsourced or ended run, other runs and aliases stay. |
| `RunCoordinator.Coordinator.Notify` | src/extension/run-coordinator.ts:235-245 | In place: only reports of sources take effect, hearing them again changes nothing, and the registry stays valid. |
| `RunCoordinator.Coordinator.EvictOldest` | src/extension/run-coordinator.ts:270-274 | The eviction loop drops exactly the excess terminal runs. |
| `RunCoordinator.Coordinator.Terminalize` | src/extension/run-coordinator.ts:258-277 | An ended run is refused; any other moves from the active to the front of the 32 latest ended runs with this terminal, nobody else ends or revives, and only names of runs that no longer fit go. |
| `RunCoordinator.Coordinator.BindAlias` | src/extension/run-coordinator.ts:283-300 | Each refusal occurs exactly for its cause and changes nothing; otherwise the name leads to the run, and every earlier alias and decision stays. |
| `RunCoordinator.Coordinator.Cancel` | src/extension/run-coordinator.ts:302-312 | Each answer occurs exactly for its cause; exactly the live run whose control is held gets its cancellation requested, and the registry stays valid. |
| `RunCoordinator.Coordinator.SetSession` | src/extension/run-coordinator.ts:315-327 | In place: a stale or invalid session is refused, for its cause and without effect; any other becomes current, active runs of another generation are cancelled, and the registry stays valid. |
| `RunCoordinator.Coordinator.InvalidateSession` | src/extension/run-coordinator.ts:328-333 | In place: every active run is cancelled, the generation is spent, and the registry stays valid. |
| `RunCoordinator.Coordinator.AllocateLocalId` | src/extension/run-coordinator.ts:340-345 | The attempt loop finds the first safe unused candidate, and nothing only if there is none. |
| `RunCoordinator.Coordinator.Create` | src/extension/run-coordinator.ts:334-367 | In place: each refusal occurs exactly for its cause; otherwise a run of the current session is added under the first usable id, and the registry stays valid. |
| `RunCoordinator.Coordinator.Observe` | src/extension/run-coordinator.ts:409-421 | A stale report changes nothing; after any other the run has at least its progress, keeps its run id, and has the reported id or a conflict, exactly so without subscribers. |
| `RunCoordinator.Coordinator.Finish` | src/extension/run-coordinator.ts:422-431 | A run ends as finished only under its own run id and without conflict, a mismatch is refused exactly otherwise, and a refused run has not ended. |
| `RunCoordinator.Coordinator.Handle` | src/extension/run-coordinator.ts:368-435 | In place: every request of the owner has its effect or its refusal, anybody else is refused, and the registry stays valid. |
| `RetentionPolicy.SelectAged` | src/runtime/run-retention-policy.ts:29-33 | The first pass selects the removable runs of the shortest oldest-first cut with all aged ones. |
| `RetentionPolicy.SelectForCount` | src/runtime/run-retention-policy.ts:34-38 | The second pass extends the cut only while the count exceeds its limit. |
| `RetentionPolicy.SelectForBytes` | src/runtime/run-retention-policy.ts:39-43 | The third pass extends the cut only while the bytes exceed their limit. |
| `RetentionPolicy.SelectRetentionCandidates` | src/runtime/run-retention-policy.ts:20-50 | The passes select exactly the abandoned runs and the removable runs of the shortest oldest-first cut that contains all aged or forced ones and meets both limits, or exhausts the runs. |
| `RetentionPolicy.OnlyRemovableRunsSelected` | src/runtime/run-retention-policy.ts:17-18 | No run with a live or undetermined writer is ever selected. |
| `RunInspection.MeasuredPage` | src/runtime/run-inspection.ts:429-437 | Four attempts always reach a page size that states itself, the least one. |
| `RunInspection.InspectPage` | src/runtime/run-inspection.ts:494-542 | A page holds the most items that page size and byte limit allow, of the journal or of the prefix its cursor names; a stale cursor is refused. |
| `RunInspection.FollowCursors` | src/runtime/run-inspection.ts:508-541 | Following the cursors ends and yields exactly the items of the first snapshot while the journal grows, if each single item fits. |
| `Preview.ContinuationIsInside` | src/core/preview.ts:14-15 | A byte is a continuation byte exactly when no code point begins there. |
| `Preview.DecodeSlice` | src/core/preview.ts:24-34 | Decoding the bytes between two boundaries gives back the code points between them. |
| `Preview.TruncateUtf8` | src/core/preview.ts:17-25 | The longest leading run of whole code points within the limit, less a leading U+FEFF. |
| `Preview.TruncateUtf8Tail` | src/core/preview.ts:27-35 | The longest trailing run of whole code points within the limit, less a leading U+FEFF. |
| `Preview.HeadTailPreview` | src/core/preview.ts:50-63 | Longest head and tail that never overlap; the omitted bytes are those between them plus three per slice beginning with U+FEFF. |

## Left out

- LedgerCorrections.QuiescentLedgerIsRebuilt: stored bytes are not reserved during a run in the model, so that column is the start value on both sides; the content store's byte ledger is not part of this model.
- LedgerCorrections.LedgerEqualsJournalPlusCorrections: recurse frames are taken to be journaled with the ordinal reserved for them, and intent ids to be named after their identity, as the program builds them.
- CatalogAgreement.CatalogsAreTheFrames: catalogs are maps by frame, not lists sorted by frame id.
- CheckpointRecovery.CaptureFrames: returns that map; sorting its entries by frame id is left out.
- CheckpointRecovery.RecoverFrames: returns that map; sorting its entries by frame id is left out.
- LawfulRuns.LawfulJournalFolds: approvals, workspaces, calls, answers and closures are lawful when the validator accepts them by themselves; that the runtime writes them so is not derived. That keys are bound once is `KeyBindingProtocol.JournalBindsOnce`.
- ScopeUsage.CommittedUsage: the settlements are the module's own log, not the journal of `Provider`, and a call that ends by an error without being committed carries none.
- Provider.DoExternalEnded: the sums per usage scope, whose overflow also makes the outcome an invalid result, are kept in ScopeUsage alone.
- JsonText.CanonicalTextIsIdentity: numbers are integers of any size in decimal notation; fractions, exponents and negative zero are not modelled.
- RunInspection.InspectPage: request parsing, cursor encoding and its authentication code are replaced by the cursor's contents; a digest of a prefix stands for the prefix.
- Preview.TruncateUtf8: only well-formed byte strings are ever decoded; how the platform repairs malformed ones is modelled as one replacement per byte.
- RetentionPolicy.SelectRetentionCandidates: run names are distinct, as directory entries are, and their host collation is a number.
- Provider, ScopeUsage, KeyBindingProtocol and CheckpointStore are state machines over values instead of objects: every await is a point where others run or the process stops, so the steps between awaits, not the methods, are the units. Aliasing of the shared state object is not captured.
- The event fold updates one value per event instead of several maps in place; `ValidationLoops`, `DeriveJournalState`, `CaptureFrames`, `RecoverFrames` and `ReduceStatusLoop` are its loops.
- Coordinator records are values numbered by creation; objectives, approvals, display projections and subscriber callbacks are not part of the model.
- The validator's list of content references, program normalization, manifest parsing and checkpoint payload parsing.
- `releaseLogicalCall`, `reserveBytes`, `releaseBytes` and `budgetView` of the ledger, and the transactional retention of call results.
- `parseJsonValue`: cycles, accessors and array holes of untrusted host values.
- File modes, links, inode stability and directory identity in the checkpoint store; unexpected directory entries.
- Key bindings and checkpoints after a run's terminal, and drains of the journal writer.
- Model requests, token estimation, response normalization, program execution, prompts, delegation and user interface.
