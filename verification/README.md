# Verified models of the goal subsystem, skill sync, hooks and tool output

This project models parts of a coding agent's runtime in Dafny and proves properties of them.

- **Goals.** Each thread has at most one goal row. Many tasks work on it at once: the user through a service that holds
  a one-permit lock, turn hooks, the model's tools, token accounting and an idle loop that starts new turns. The row is
  only protected by compare-and-set statements on the goal id and the status. `GoalRow.Apply` says what one atomic
  statement does; the class `GoalStore` is proved to do exactly that for one thread and nothing to any other. A call that
  awaits between two statements is modelled with whatever statements other tasks issue there: methods take them as
  sequences (`gap`, `TurnEnv`, `IdleEnv`, `ToolEnv`), and the modules `TokenLedger`, `GoalArming`, `WallClock`,
  `BudgetSteering`, `CompletionGate`, `TurnRuns`, `TurnNumbers` and `Exclusion` are state machines whose runs interleave the steps freely.
- **Skill sync.** A manifest-driven three-way merge of bundled skills into a directory that belongs to the user.
- **Hooks.** Layered definitions are merged and indexed, a gate asks the hooks before a tool runs, and a bounded queue
  collects what asynchronous hooks say.
- **Streams and tool output.** An event stream is consumed while racing its producer's completion, and tool output is cut
  to a per-turn budget.

Times are natural numbers, lock acquisition either succeeds or fails, and results of reads, writes, hooks, verify commands
and the turn driver are parameters. `dafny verify dfyconfig.toml` checks everything.

## Findings

Where the code falls short of its comments, a lemma gives a run or an input, and another says when exactly it holds.

- A late, smaller usage total is charged again by the next reading, by exactly the weight it went back
  (`TokenDelta.LateTotalIsPaidTwiceExactly`).
- A goal can pay for usage from before it existed: when it replaces one that has not reported in this turn
  (`GoalArming.ReplacingMidTurnChargesTheSuccessor`), or is created after a clear. Resuming in the middle of a turn and a
  flush after a database error charge a prompt twice. A baseline that is handed out is safe exactly when it weighs what is
  owed (`GoalArming.ArmingIsFairExactly`).
- A flush stops the clock even when its statement is refused or lost; those seconds are charged to nobody
  (`WallClock.CallKeepsExactly`).
- That steering is produced at most once per goal holds under the hypothesis that turn-end hooks run one after the other
  (`BudgetSteering.SteeredAtMostOnce`), which nothing in the host enforces; without it a goal can be steered twice
  (`BudgetSteering.OverlappingHooksSteerTwice`). Steering names the goal whose budget was reached exactly if that is still in the
  row when read, and the closing turn is counted for it exactly if it is still there when read again
  (`GoalRuntime.SteeringNamesExactly`).
- There is one turn binding for the whole session, and a turn need not have ended when the next one starts. A reported
  pause (`TurnRuns.PauseLosesTheProtection`), another turn's late exit or a later start
  (`TurnRuns.LateExitBlocksTheNextGoal`) take a turn's binding away; the turn may then block a goal it never worked on,
  exactly under the conditions of `TurnRuns.ForeignGoalIsBlockedExactly`.
- The exemption of a turn outlives it when the turn runs out of quota (`TurnRuns.QuotaLeavesTheExemptionBehind`), which
  also limits the goal it is exempt from, and when its prompt returns without an exit hook
  (`TurnRuns.EarlyReturnLeavesTheExemptionBehind`); `TurnRuns.ExitIsSilentExactly` says when an exit is exempt.
- A refused `set` or `edit`, a blank edit for example, has already changed the objective file; when exactly the text
  survives is said by `ObjectiveHistory.FailedSetKeepsObjectiveExactly`, `ObjectiveHistory.FailedEditKeepsObjectiveExactly`
  and, with other tasks in between, `Exclusion.RefusedEditKeepsTextExactly`.
- Completion is refused when the clock alone takes a spent goal over its budget (`GoalTools.CompletesExactlyBelowBudget`).
- A newly installed skill with more files than `SKILL.md` never gets the others (`SkillSync.PartialInstallIsNeverCompleted`
  with `SkillSync.UsersOwnIsKeptForEver`). A skill whose name ends in `.bak` is deleted by its own update
  (`SkillSync.OwnBackupIsLost`), or by that of the skill it is named after (`SkillSync.BackupClashLosesTheDirectory`).
- The dispatcher's queues hold one item, not 32 (`HookDispatcher.OnlyTheNewestWaits`). The comment on declaration order
  (`agent/hook-core/src/registry.rs:37`) holds for the position at which a name was first seen (`HookRegistry.FromLayers`).
- A plugin's definition that claims the user's scope is put before the user's own (`HookLayers.ClaimedScopeWins`).
- A large output is announced as saved even when it could not be stored (`OutputNormalizer.OutputTells`).
- A stream poll that is turned away after completion drops what is still buffered (`StreamRunner.AllDeliveredExactly`).

## Model

| member | source | states |
|---|---|---|
| GoalRow.Apply | agent/goal/src/store.rs:145-197 | a deferral never outlives its goal row, whatever statement is executed |
| GoalRow.Run | agent/goal/src/store.rs:604-640 | nor over any sequence of statements of any tasks |
| GoalStore.GoalStore.Create | agent/goal/src/store.rs:145-179 | only this thread's cell changes, as the statement on the row says; the reply agrees |
| GoalStore.GoalStore.Replace | agent/goal/src/store.rs:183-197 | a valid request always wins and takes the deferral away; an invalid one changes nothing |
| GoalStore.GoalStore.InsertMigrated | agent/goal/src/store.rs:251-300 | counters clamped, revision and iteration start over, deferral gone |
| GoalStore.GoalStore.Clear | agent/goal/src/store.rs:346-352 | row and deferral go together; the answer says whether there was a row |
| GoalStore.GoalStore.Resume | agent/goal/src/store.rs:322-342 | active again exactly for the expected goal in a resumable status, without comparing tokens to budget |
| GoalStore.GoalStore.EditObjective | agent/goal/src/store.rs:356-390 | a new objective raises the revision by one; refused for another goal or a terminal status |
| GoalStore.GoalStore.UpdateBudget | agent/goal/src/store.rs:396-428 | a new budget for any goal that is not complete, leaving tokens and status alone |
| GoalStore.GoalStore.SetIteration | agent/goal/src/store.rs:432-456 | writes the iteration of the expected goal and of no other |
| GoalStore.GoalStore.TransitionStatus | agent/goal/src/store.rs:511-544 | a compare-and-set on goal id and status: both must match, else nothing changes |
| GoalStore.GoalStore.AccountThreadGoalUsage | agent/goal/src/store.rs:548-600 | adds non-negative usage and flips to budget_limited in one step, for the expected goal under an allowed status |
| GoalStore.GoalStore.DeferContinuation | agent/goal/src/store.rs:606-616 | a deferral is written exactly if there is a row |
| GoalStore.GoalStore.ClearContinuationDeferral | agent/goal/src/store.rs:629-640 | the deferral is gone; the answer says whether there was one |
| StoreRuns.RemovedGoalNeverReturns | agent/goal/src/store.rs:346-600 | in every run with fresh ids, an id that left the row is never in it again |
| StoreRuns.RowLifecycle | agent/goal/src/store.rs:304-600 | while an id lives: tokens, seconds and revision only grow, the verify command is fixed, complete is for ever |
| StoreRuns.StatusGraphIsExact | agent/goal/src/store.rs:304-600 | the ten status changes that statements can make to a living row, and no others |
| StoreRuns.CreateSucceedsExactlyOnFreeThread | agent/goal/src/store.rs:145-179 | a valid create succeeds if and only if there is no row or a complete one |
| StoreRuns.BudgetWindow | agent/goal/src/store.rs:322-342 | an active row at or over budget was reopened by resume, update_budget or import, and nothing was charged to it since |
| StoreRuns.ChargeClosesWindow | agent/goal/src/store.rs:548-600 | after an accepted charge of any size, even zero, no row is active at or over budget until resume, update_budget or import succeeds |
| StoreRuns.BudgetLimitedIsSticky | agent/goal/src/store.rs:460-544 | without a resume, a limited goal can only become usage limited, be replaced or be cleared |
| StoreColumns.LastRequestIsOnTheRow | agent/goal/src/store.rs:145-456 | in every run, budget, verify command, objective and iteration of the row are those of the last accepted statement that writes them |
| StoreColumns.DeferredExactly | agent/goal/src/store.rs:604-640 | in every run, a thread is deferred exactly if a goal was deferred and neither the deferral nor that goal has been taken away since |
| StoreColumns.InsertedRowExactly | agent/goal/src/store.rs:145-300 | a new row is active, unused and uncounted with the request's text, budget and verify command; an imported one keeps its status and has its counters clamped |
| StoreColumns.AnswersAreTrue | agent/goal/src/store.rs:604-640 | an answered row is the row that is there, a refusal changes nothing, and flags say what was found |
| StoreColumns.RefusalsSayWhy | agent/goal/src/store.rs:145-179 | which error a create or replace is refused with, exactly, in the order in which they are looked at |
| StoreColumns.ModesChargeExactly | agent/goal/src/store.rs:548-600 | which statuses each accounting mode charges, and that a refused charge changes nothing |
| TokenDelta.GoalTokenDelta | agent/goal/src/accounting.rs:34-42 | a charge is never negative and fits a signed 64-bit integer |
| TokenDelta.DeltaIsWeightDifference | agent/goal/src/accounting.rs:34-42 | between readings of one prompt the saturating formula is the difference of their weights, up to the clamp |
| TokenDelta.DeltaOfAnyReadings | agent/goal/src/accounting.rs:34-42 | for any two readings, in order or not: uncached input plus output, each never negative, up to the clamp |
| TokenDelta.DeltaTelescopes | agent/goal/src/accounting.rs:34-42 | splitting a report charges the same if and only if the whole stays below the clamp or a part is free |
| TokenDelta.LateTotalIsPaidTwiceExactly | agent/goal/src/accounting.rs:160-164 | a late reading is free itself, and the next one pays exactly the stretch it went back again |
| GoalAccounting.GoalAccounting.AccountWith | agent/goal/src/accounting.rs:120-190 | the locked call equals its read step, any statements of others, and its compare-and-set; lock and database failures included |
| GoalAccounting.GoalAccounting.Issue | agent/goal/src/accounting.rs:166-189 | only an accepted statement advances the baseline; a failed one loses it |
| GoalAccounting.GoalAccounting.FinishTurn | agent/goal/src/accounting.rs:96-102 | the same call with the mode that also admits budget_limited, flushing the clock |
| GoalAccounting.GoalAccounting.StopAbnormal | agent/goal/src/accounting.rs:105-117 | the same call with the mode that admits every status but complete |
| GoalAccounting.GoalAccounting.StartWallClockIfActive | agent/goal/src/accounting.rs:224-239 | the active goal is measured from zero, anything else forgets the baseline |
| GoalAccounting.GoalAccounting.TakeBudgetSteeringIfFlipped | agent/goal/src/accounting.rs:195-219 | the slot is claimed for the goal in the row, at most once in a row, and only on a flip |
| GoalAccounting.CallIsAcceptedExactly | agent/goal/src/accounting.rs:120-190 | for every memory, reading and interference: a call changes the row exactly if it has something to add and its statement meets the measured goal in an admitted status; else the row is left to the others |
| GoalAccounting.CallChargesExactly | agent/goal/src/accounting.rs:143-175 | an accepted call adds exactly the tokens since the baseline and the seconds on a flushed clock, and changes nothing else but the status of a goal that reaches its budget |
| GoalAccounting.CallFailsExactly | agent/goal/src/accounting.rs:125-134 | when a call fails, and with which error |
| GoalAccounting.FlushStopsTheClock | agent/goal/src/accounting.rs:149-157 | a flush that finds its own goal's baseline, or none, stops the clock whatever becomes of its statement; no other call touches it |
| GoalAccounting.BaselineFollowsTheRow | agent/goal/src/accounting.rs:134-189 | what the baseline is after a call, for every outcome |
| WallClock.SecondsStayWithinTime | agent/goal/src/accounting.rs:120-246 | over every run of starts, arms, calls and statements of others, with any failures: the seconds on the row and on the clock grow by no more than the time that has passed |
| WallClock.StoppedClockAddsNothing | agent/goal/src/accounting.rs:149-157 | from a stopped clock on, no run without a start adds a second |
| WallClock.SecondFlushAddsNothing | agent/goal/src/runtime.rs:538-540 | so after a flush, accepted or not, a second one adds nothing |
| WallClock.CallKeepsExactly | agent/goal/src/accounting.rs:149-189 | a call moves what the clock shows to the row or leaves it there, exactly unless it flushes a running clock and its statement is refused or lost |
| WallClock.SecondsAreConserved | agent/goal/src/accounting.rs:120-246 | over every run without such a loss, row and clock together show exactly the time the clock was running |
| WallClock.TurnIsTimedExactly | agent/goal/src/accounting.rs:224-239 | a turn that starts on an active goal and ends with an accepted flush adds exactly the time between |
| TokenLedger.StepKeepsInv | agent/goal/src/accounting.rs:120-190 | every step of usage, accounting, store, arming, clock and prompt keeps all charges within the weight of the baseline, and the row explained by them |
| TokenLedger.NoTokenIsChargedTwice | agent/goal/src/accounting.rs:120-190 | in every orderly interleaving all charges of a prompt together, and so what is added to any row, stay within what the prompt has used |
| TokenLedger.ChargeStaysWithItsGoal | agent/goal/src/store.rs:574-575 | a compare-and-set adds tokens only to the goal its baseline was bound to |
| TokenLedger.TokensAreConserved | agent/goal/src/accounting.rs:120-190 | over every undisturbed interleaving, tokens on the row plus what is still to be charged for any later reading is constant |
| TokenLedger.FinishTurnSettles | agent/goal/src/accounting.rs:96-102 | the end of a turn leaves exactly the usage since the start, if and only if the row is then active or budget limited, or nothing was left |
| GoalArming.StepKeepsOwn | agent/goal/src/accounting.rs:134-189 | every step with a fair baseline keeps one goal's charges within the usage since it was first given a baseline |
| GoalArming.NoUsageFromBefore | agent/goal/src/accounting.rs:134-189 | in every run in which each baseline handed to a goal weighs at least the usage of that moment, its row never holds usage from before |
| GoalArming.ArmingIsFairExactly | agent/goal/src/accounting.rs:269-273 | a baseline handed to an open goal is safe for every fair continuation if and only if it weighs at least what is owed: the usage of the moment, or what a goal with an earlier baseline has paid for |
| GoalArming.NoteArmedIsFairExactly | agent/goal/src/runtime.rs:515-518 | arming a new goal with the last known totals is safe if and only if nothing has been used since the last reading |
| GoalArming.ArmedWithoutReadingIsFairExactly | agent/goal/src/runtime.rs:515-518 | without a reading in the prompt, so after a clear, without a goal, or before the first report, if and only if nothing has been used at all |
| GoalArming.RestartIsFairExactly | agent/goal/src/accounting.rs:224-239 | starting the clock again is safe if and only if the goal owes nothing |
| GoalArming.ReplacingMidTurnChargesTheSuccessor | apps/acp/src/extensions/goal.rs:515-520 | a goal that is replaced before its first report leaves its usage to the replacement, over a run of real steps |
| GoalArming.ArmingAfterClearChargesTheSuccessor | agent/goal/src/runtime.rs:506-518 | so does a goal that is cleared before another one is created |
| GoalArming.ResumeMidTurnChargesAgain | agent/goal/src/runtime.rs:531-532 | pause and resume inside a turn charge the same tokens twice |
| GoalArming.FlushAfterLostBaselineChargesAgain | agent/goal/src/accounting.rs:140-175 | a database error followed by a flush without a reading charges the whole prompt again |
| BudgetSteering.SteeredAtMostOnce | agent/goal/src/accounting.rs:195-219 | with serialized hooks and fresh ids, steering is produced at most once per goal over any run |
| BudgetSteering.OverlappingHooksSteerTwice | agent/goal/src/runtime.rs:563-607 | two hooks that overlap a replacement, each with a charge of its own that hits a budget, lead to a second steering of the replacement after a resume |
| BudgetSteering.SteeringNamesTheFlippedGoalExactly | agent/goal/src/accounting.rs:195-219 | in every run, steering names the goal whose charge hit the budget if and only if that was still in the row when read, and otherwise it is gone for ever |
| BudgetSteering.ReplacedGoalTakesTheSteering | agent/goal/src/accounting.rs:195-219 | a goal replaced between charge and read passes its steering to the replacement, which then gets none of its own |
| CompletionGate.CompleteMeansVerified | agent/goal/src/tools.rs:410-458 | in every interleaving a complete goal has no verify command, or that command ran ok for that goal |
| CompletionGate.CompletedGoalHasRun | agent/goal/src/tools.rs:410-458 | every complete goal with a verify command has a step in its past at which that command returned ok for it |
| CompletionGate.FailingVerifyNeverCompletes | agent/goal/src/tools.rs:416-428 | as long as every verify run fails, no goal with a verify command is ever complete |
| CompletionGate.SetGoalIsVerified | agent/goal/src/service.rs:144-149 | a goal that the user set with a verify command is complete, whatever ran before and after the set, only if that very command has returned ok for it since |
| GoalTools.GoalTools.UpdateGoalComplete | agent/goal/src/tools.rs:410-458 | the tool equals its steps read, verify, report, flush, compare-and-set, with other tasks in between |
| GoalTools.GoalTools.UpdateGoalBlocked | agent/goal/src/tools.rs:374-409 | the same for blocking, with a default reason |
| GoalTools.GoalTools.CreateGoal | agent/goal/src/tools.rs:242-300 | a created goal is armed with the usage of the moment; a refused one leaves the accounting alone |
| GoalTools.BlocksTheGoalReadExactly | agent/goal/src/tools.rs:374-409 | in every environment, update_goal(blocked) blocks the goal it read, with the reason given, exactly if that is in the row and active just before the last statement; nothing else changes |
| GoalTools.CompletesTheGoalReadExactly | agent/goal/src/tools.rs:410-458 | the same for completion once the verify command has returned true |
| GoalTools.VerifyDecidesExactly | agent/goal/src/tools.rs:416-428 | completion stops at the verify command exactly if the goal read has one and it returns false |
| GoalTools.BlockingSettlesItsOwnUsage | agent/goal/src/tools.rs:384-392 | the usage of the blocking call is on the row unless the goal is inactive at that moment, and the clock is stopped |
| GoalTools.SettlingAddsItsSeconds | agent/goal/src/runtime.rs:389-400 | settling puts what the clock shows on the row, once, unless the goal is complete by then |
| GoalTools.NothingToMark | agent/goal/src/tools.rs:374-458 | neither call does anything without a goal, and a failed settling is where both end |
| GoalTools.OnlyTheVerifiedGoalCompletes | agent/goal/src/tools.rs:410-458 | at most the goal that was read completes, and only after its command returned true |
| GoalTools.CompletionSettlesItsOwnUsage | agent/goal/src/runtime.rs:389-400 | whatever others do to the goal, the call's own usage is on the row unless the goal is inactive at that moment, and the call completes exactly if it is active at the end |
| GoalTools.CompletesExactlyBelowBudget | agent/goal/src/tools.rs:410-458 | undisturbed, with or without verify command and running clock, it completes if and only if the budget is not reached or nothing, not even a second, had to be added |
| GoalService.GoalService.PrepareObjective | agent/goal/src/service.rs:162-190 | inline text removes the file, long text becomes a file and a marker, too long or unwritable text is refused |
| GoalService.GoalService.SetWithVerifyOutcome | agent/goal/src/service.rs:134-157 | lock, file step and replacement in that order, the file step even when the replacement is refused |
| GoalService.GoalService.Edit | agent/goal/src/service.rs:240-255 | refused for terminal goals before the file is touched |
| GoalService.GoalService.Clear | agent/goal/src/service.rs:227-237 | row, deferral and file go together |
| GoalService.GoalService.Resume | agent/goal/src/service.rs:213-224 | refused with the status it found when that is not resumable |
| GoalService.GoalService.ResolveObjective | agent/goal/src/store.rs:117-139 | the text behind a marker, or the stored text when there is no such file |
| GoalService.SetExactly | agent/goal/src/service.rs:134-190 | for every input and condition: when a set succeeds, that the new goal carries id, text, budget and verify command of the request, active and unused, without a deferral, and what becomes of the file |
| GoalService.EditExactly | agent/goal/src/service.rs:240-255 | when an edit succeeds, and that it changes text, revision and file and nothing else |
| GoalService.ClearExactly | agent/goal/src/service.rs:227-237 | after a clear there is no row, no deferral, and no file if there was a row |
| GoalService.ChangeExactly | agent/goal/src/service.rs:203-272 | when pause, resume and update_budget succeed, and that each changes only what it is for |
| GoalService.SetRefusedExactly | agent/goal/src/service.rs:134-190 | for each error, exactly when a set is refused with it |
| GoalService.EditRefusedExactly | agent/goal/src/service.rs:240-255 | for each error, exactly when an edit is refused with it |
| GoalService.ChangeRefusedExactly | agent/goal/src/service.rs:203-272 | the same for pause, resume, update_budget and clear |
| ObjectiveFile.Sanitize | agent/goal/src/objective_file.rs:26-38 | same length, safe characters kept, every other one an underscore |
| ObjectiveFile.MarkerNamesItsFile | agent/goal/src/objective_file.rs:53-65 | a thread's marker leads back to its file name and survives trimming |
| ObjectiveFile.ResolvesExactly | agent/goal/src/store.rs:117-139 | a marker with a file reads as the file, everything else as what is stored |
| ObjectiveHistory.ObjectiveRoundTrip | agent/goal/src/service.rs:134-255 | over any history of successful calls, every thread's goal resolves to what its user asked for last |
| ObjectiveHistory.OtherThreadKeepsItsTextExactly | agent/goal/src/objective_file.rs:26-38 | another thread's call spares a file exactly when the sanitized names differ or it writes the same text |
| ObjectiveHistory.InlineMarkerReadsBackExactly | agent/goal/src/objective_file.rs:58-65 | an inline text that looks like a marker reads back exactly when it names no other file with another text |
| ObjectiveHistory.DifferentThreadsCanShareAName | agent/goal/src/objective_file.rs:26-38 | sanitized names of different threads can be the same |
| ObjectiveHistory.FailedSetKeepsObjectiveExactly | agent/goal/src/service.rs:134-157 | a set that fails, for whatever reason, keeps the old objective exactly when it was inline, or the file step was not reached, refused, or wrote the same text |
| ObjectiveHistory.FailedEditKeepsObjectiveExactly | agent/goal/src/service.rs:240-255 | the same for edit, which a terminal goal refuses before the file step |
| ObjectiveHistory.BlankEditLosesTheText | agent/goal/src/service.rs:168-171 | a blank edit is refused and takes a long objective with it |
| GoalRuntime.GoalRuntime.BindTurn | agent/goal/src/runtime.rs:209-223 | the turn is bound to the goal that is active when it starts, after the deferral is cleared |
| GoalRuntime.GoalRuntime.OnTurnFinish | agent/goal/src/runtime.rs:238-281 | account, judge the tool streak, block or steer, with other tasks at every await; the binding is gone |
| GoalRuntime.GoalRuntime.OnTurnAbort | agent/goal/src/runtime.rs:285-292 | charges the usage, starts nothing and leaves the steering slot alone |
| GoalRuntime.GoalRuntime.OnTurnError | agent/goal/src/runtime.rs:302-350 | charges, blocks the bound goal or any active one without a binding, then steers |
| GoalRuntime.GoalRuntime.OnProviderQuotaExhausted | agent/goal/src/runtime.rs:361-385 | charges, then limits the goal that is there |
| GoalRuntime.GoalRuntime.ContinueIfIdle | agent/goal/src/runtime.rs:405-487 | the call as a function of visibility, lock, deferral, row and driver, with other tasks in between |
| GoalRuntime.GoalRuntime.OnGoalStatusChanged | agent/goal/src/runtime.rs:527-545 | active restarts the clock from zero, anything else drops the binding and flushes |
| GoalRuntime.GoalRuntime.InjectBudgetSteeringIfFlipped | agent/goal/src/runtime.rs:563-607 | a claimed flip starts at most one closing turn, with the full objective, and counts it; a plain one when the row is gone |
| GoalRuntime.ErrorBlocksOnlyTheBoundGoal | agent/goal/src/runtime.rs:315-341 | a bound turn's error blocks the row exactly when that is the bound goal and active, whatever happened in between |
| GoalRuntime.BudgetWinsOverBlocking | agent/goal/src/runtime.rs:238-281 | a finished turn whose charge hits the budget is not blocked for failing tools unless somebody resumes the goal in between, and is steered exactly if that is the first time |
| GoalRuntime.ErrorSettlesTheTurn | agent/goal/src/runtime.rs:302-350 | with other tasks at every await: the usage is on the row once, unless the status at that statement forbids it, and the goal is blocked exactly if it is active at that one |
| GoalRuntime.FinishSettlesTheTurn | agent/goal/src/runtime.rs:238-281 | the same for a finish, which blocks only for failing tools |
| GoalRuntime.StopSettlesTheTurn | agent/goal/src/runtime.rs:285-385 | the same for a cancellation and for an exhausted quota, which limits the goal unless its status by then forbids it |
| GoalRuntime.ClosingTurnExactly | agent/goal/src/runtime.rs:563-607 | an exit starts the closing turn exactly when its statement leaves the goal limited by its budget, for the first time, on an idle host, whatever happens to the goal in between |
| GoalRuntime.SteeringNamesExactly | agent/goal/src/runtime.rs:563-607 | steering is for the goal whose charge hit the budget if and only if the first read finds it; the closing turn is counted for it if and only if the second one does |
| GoalRuntime.ExitNamesExactly | agent/goal/src/runtime.rs:238-350 | the same over whole errors and finishes, for every interleaving |
| GoalRuntime.ClosingTurnForTheReplacement | agent/goal/src/runtime.rs:579-592 | a replacement between the reads gets a closing turn with the objective of the goal that is gone |
| GoalRuntime.ContinuationCarriesTheGoalRead | agent/goal/src/runtime.rs:405-487 | when exactly a continuation starts, and that it carries id, full objective and next iteration of the row it read |
| GoalRuntime.ContinuationIsCounted | agent/goal/src/runtime.rs:465-487 | a started continuation is counted on the row of its goal unless that has left the row by then or the statement is lost in the database; nothing else changes, and a call that starts nothing leaves the cell to the others |
| GoalRuntime.ClosingIsCounted | agent/goal/src/runtime.rs:579-605 | the same for the closing turn; without a row the text starts a plain turn, which is not counted |
| GoalRuntime.SteeringCloses | agent/goal/src/runtime.rs:563-607 | steering claims the slot for the goal it reads, with its full text, and starts the closing turn for that text |
| GoalRuntime.UnboundErrorBlocksExactly | agent/goal/src/runtime.rs:328-341 | without a binding an error blocks, with its reason, the goal it reads active if that is still there and active |
| GoalRuntime.QuotaLimitsExactly | agent/goal/src/runtime.rs:361-385 | the quota exit limits, with its reason, the goal it reads if that is still there, and active or budget limited |
| GoalRuntime.StoppedTurnsAreChargedAlike | agent/goal/src/runtime.rs:285-385 | cancelled, failed and quota exits make the same charge, and a failed charge ends each of them |
| GoalRuntime.FinishStopsEarly | agent/goal/src/runtime.rs:238-281 | a finish that blocks its goal produces no steering and no closing turn |
| TurnNumbers.TurnsAreNumbered | agent/goal/src/runtime.rs:405-607 | over any sequence of continuations and closing turns, with others in between: the turns of a goal are numbered without gap or repetition, and the row shows the last number, as long as the numbering statements reach the database |
| TurnNumbers.SuccessiveContinuationsCountUp | agent/goal/src/runtime.rs:465-475 | two undisturbed continuations carry the next two numbers, exactly if the first one's numbering statement is not lost in the database |
| TurnRuns.BindingIsTheLastUntaken | agent/goal/src/runtime.rs:209-223 | in every run of overlapping and abandoned turns, the binding is that of the last start with an active goal that no exit and no reported change has taken since, whoever's exit it was |
| TurnRuns.StartIsTheHook | agent/goal/src/runtime.rs:198-223 | a start of the machine leaves row, clock and binding as the start hook does |
| TurnRuns.StaleBindingOrigin | apps/acp/src/agent.rs:1427-1431 | a binding found belongs to a turn that has not reached an exit, and perhaps never will, or that left by its quota exit |
| TurnRuns.ExitBlocksExactly | agent/goal/src/runtime.rs:302-350 | in any state: with a binding an exit blocks the bound goal or none, without one the goal it read or none, and when exactly |
| TurnRuns.BoundTurnBlocksItsGoalOnly | agent/goal/src/runtime.rs:238-350 | over every run, a turn whose binding is untouched at its exit blocks its own goal or none, and when exactly |
| TurnRuns.TakenByOthers | agent/goal/src/runtime.rs:231-233 | what takes a turn's binding before its own exit is a reported status change or another turn's exit |
| TurnRuns.ForeignGoalIsBlockedExactly | agent/goal/src/runtime.rs:328-341 | a turn that began on one goal blocks another exactly if its binding was taken or overwritten since and the rows met by the exit are as the binding then found requires |
| TurnRuns.StaleBindingShieldsOtherGoals | agent/goal/src/runtime.rs:315-341 | an exit that finds another turn's binding can block only the goal of that one, so none that it created itself |
| TurnRuns.SilentExactly | agent/goal/src/runtime.rs:238-385 | an exit leaves row, accounting and slot alone for every row and usage if and only if it is not the quota exit and the binding is exempt; the row alone under the same condition |
| TurnRuns.ExitIsSilentExactly | agent/goal/src/runtime.rs:547-561 | over every run: exactly if it is no quota exit and the last start with an active goal, not taken since, was exempt, whatever the turn that ends |
| TurnRuns.UntouchedExemptTurnIsSilent | agent/goal/src/runtime.rs:547-561 | so an exempt turn that found an active goal and kept its binding changes nothing but the binding, unless it runs out of quota |
| TurnRuns.PauseLosesTheProtection | agent/goal/src/runtime.rs:535-536 | a run of start, pause, replacement and failure in which the replacement is blocked |
| TurnRuns.LateExitBlocksTheNextGoal | apps/acp/src/agent.rs:1798-1856 | a run in which the next turn starts before the first one's exit hook, which then blocks the goal of the next one and takes its binding |
| TurnRuns.EarlyReturnLeavesTheExemptionBehind | apps/acp/src/agent.rs:1427-1550 | a run in which an exempt prompt clears the goal and returns without an exit hook, and the ordinary turn after it leaves no trace |
| TurnRuns.QuotaLeavesTheExemptionBehind | agent/goal/src/runtime.rs:361-385 | a run in which an exempt turn limits the goal and makes the next turn exempt |
| Exclusion.StepKeepsInv | agent/goal/src/service.rs:22-40 | every step of the idle loop, of any number of waiting user calls and of unlocked tasks keeps lock, row, file and request in agreement |
| Exclusion.ContinuationIsExclusive | agent/goal/src/runtime.rs:405-487 | in every interleaving no user call writes between the row's read and the turn's start; no deferral at the check, tools not known missing; the turn carries that row's id and, when calls succeed, the objective asked for last |
| Exclusion.OneInside | agent/goal/src/service.rs:95-104 | continuation and user calls are never inside the lock together |
| Exclusion.RefusedEditKeepsTextExactly | agent/goal/src/service.rs:240-255 | after an edit's file step, any steps of others and a refused row step, the row reads as what was asked for exactly if it is gone, inline, or the edit wrote the same text |
| Exclusion.LateCompletionRefusesTheEdit | agent/goal/src/service.rs:248-252 | a completion in between is one way to be refused |
| Exclusion.BlankEditIsRefused | agent/goal/src/service.rs:248-252 | a blank text is another |
| ToolAccounting.ToolAccounting.RecordToolOutcome | agent/goal/src/tool_accounting.rs:54-66 | a success clears the streak; only failing execution tools count as failures |
| ToolAccounting.ToolAccounting.ExecutionFailureGoal | agent/goal/src/tool_accounting.rs:76-93 | the streak follows the bound goal and starts over when it reaches three |
| ToolAccounting.StreakRefinement | agent/goal/src/tool_accounting.rs:54-93 | for every trace, a goal is reported exactly at every third of its failing turns since the last success or other goal |
| ToolAccounting.CounterRefinesFailures | agent/goal/src/tool_accounting.rs:54-93 | the one counter equals the number of such turns modulo three, for every goal at once |
| ToolAccounting.ThirdFailureIsReported | agent/goal/src/tool_accounting.rs:76-93 | from a fresh start, the third turn in a row in which bash, exec or shell fails and nothing works is reported, and not the first two |
| ToolAccounting.OtherFailuresDoNotCount | agent/goal/src/tool_accounting.rs:54-66 | a turn in which none of these fails is never reported |
| Steering.EscapeIsCharByChar | agent/goal/src/steering.rs:10-15 | three successive replacements equal one map over characters |
| Steering.EscapedHasNoMarkup | agent/goal/src/steering.rs:10-15 | no angle bracket is left, and every ampersand starts one of the three references |
| Steering.EscapeRoundTrip | agent/goal/src/steering.rs:10-15 | unescaping gives every text back |
| Steering.BlockEndsWhereItShould | agent/goal/src/steering.rs:53-55 | no objective can close the block it is put in |
| SkillManifest.LoadManifest | agent/skill/src/sync.rs:180-200 | the manifest read line by line, later lines winning |
| SkillManifest.SaveManifest | agent/skill/src/sync.rs:202-221 | one line per entry, each entry once |
| SkillManifest.SaveThenLoad | agent/skill/src/sync.rs:180-221 | a saved manifest loads as itself if and only if every name is free of colons, line feeds, leading blanks and a leading hash sign |
| SkillManifest.LoadedIsSafe | agent/skill/src/sync.rs:180-200 | whatever a file contains, what was loaded from it can be saved and loaded again |
| SkillManifest.ParsesExactly | agent/skill/src/sync.rs:184-197 | a line is an entry exactly if it is no comment and has a colon, the first of which ends the name |
| SkillManifest.LastLineCounts | agent/skill/src/sync.rs:180-200 | of several lines for a name the last one counts |
| SkillManifest.JoinOfLines | agent/skill/src/sync.rs:184-184 | no part of the file is passed over |
| SkillTree.CopyTree | agent/skill/src/sync.rs:27-82 | the stack-driven copy brings every directory and file over, for any listing order, and ends |
| SkillSync.OwnBackupExactly | agent/skill/src/sync.rs:299-299 | a skill's directory is its own backup exactly when its name is something followed by .bak |
| SkillSync.SkillsDir.Replace | agent/skill/src/sync.rs:299-318 | moving aside, copying and dropping the backup leaves the bundled tree, or nothing when the backup is the directory itself |
| SkillSync.SkillsDir.SyncSkill | agent/skill/src/sync.rs:237-332 | one round of the loop with all its branches, manifest and report |
| SkillSync.SkillsDir.SyncSkills | agent/skill/src/sync.rs:223-346 | a whole run over the names in some order, saved without the entries that are no longer bundled, which are reported |
| SkillSync.SyncIsExact | agent/skill/src/sync.rs:223-346 | the effect of a run on every name, bundled or not, through the saved and reloaded manifest, in any order |
| SkillSync.MissingSkillExactly | agent/skill/src/sync.rs:245-283 | a bundled skill without a directory is installed as its SKILL.md unless it was recorded and nothing forces it |
| SkillSync.UnrecordedSkillExactly | agent/skill/src/sync.rs:237-332 | one without an entry is left alone if it has a SKILL.md, and else given one and recorded |
| SkillSync.RecordedSkillExactly | agent/skill/src/sync.rs:286-332 | one with an entry is brought up to date exactly if the bundle is new and the directory is as recorded |
| SkillSync.OnlyUntouchedSkillsChange | agent/skill/src/sync.rs:286-332 | a user's directory changes only if its hash is the recorded one and the bundle differs, or it has neither entry nor SKILL.md |
| SkillSync.OnlyBackupsDisappear | agent/skill/src/sync.rs:299-300 | a user's directory disappears exactly when an update uses its name for a backup |
| SkillSync.SyncIsIdempotent | agent/skill/src/sync.rs:223-346 | a second run over the same bundle changes neither directories nor manifest |
| SkillSync.ReportTells | agent/skill/src/sync.rs:237-332 | exactly the skills whose directory or entry was written are reported as added or updated |
| SkillSync.RoundIsReported | agent/skill/src/sync.rs:237-332 | each round reports its skill under its own name, with the reason when it was skipped |
| SkillSync.EverySkillIsReportedOnce | agent/skill/src/sync.rs:223-346 | a run reports as many skills as are bundled |
| SkillSync.OwnBackupIsLost | agent/skill/src/sync.rs:299-306 | an untouched skill named like a backup is deleted by its own update |
| SkillSync.BackupClashLosesTheDirectory | agent/skill/src/sync.rs:299-306 | when one bundled skill is named like another's backup, an update of the other costs it its directory in whatever order they are taken |
| SkillSync.BackupIsItsOwn | agent/skill/src/sync.rs:299-299 | a name that serves as a backup is its own backup, so that no longer chains arise |
| SkillSync.UsersOwnIsKeptForEver | agent/skill/src/sync.rs:286-332 | over any number of releases, a version of the user's own stays as it is |
| SkillSync.PartialInstallIsNeverCompleted | agent/skill/src/sync.rs:277-283 | a fresh install counts as the user's own version exactly when the bundled skill has more files than SKILL.md |
| SkillSync.TrackedSkillFollows | agent/skill/src/sync.rs:286-322 | over any number of releases, a skill left alone shows the files of the last one |
| HookRegistry.FromLayers | agent/hook-core/src/registry.rs:38-98 | unique names, each won by the earliest declaration of highest rank, by descending rank and then first-seen position, indexed by event |
| HookRegistry.MergeIsUnique | agent/hook-core/src/registry.rs:38-98 | that description determines the registry |
| HookRegistry.BucketFollowsOrder | agent/hook-core/src/registry.rs:90-95 | an event's subscribers come in registry order and all name the event |
| HookRegistry.BucketCounts | agent/hook-core/src/registry.rs:90-95 | each definition is in a bucket as often as it names the event |
| HookRegistry.SubscribersAreWinners | agent/hook-core/src/registry.rs:101-103 | an overridden definition is never consulted |
| HookRegistry.WinnersAreSubscribed | agent/hook-core/src/registry.rs:101-103 | every winner is consulted for every event it names |
| HookLayers.RegisteredExactly | agent/hook-core/src/registry.rs:38-98 | a definition is registered exactly if it is the user's first of its name, or the project's first and the user has none, or the first plugin's and neither has; no name twice |
| HookLayers.SubscribedExactly | agent/hook-core/src/registry.rs:90-103 | it is asked about an event exactly if it is registered and names the event |
| HookLayers.LayersAreAskedInOrder | agent/hook-core/src/registry.rs:81-95 | in every bucket the user's come before the project's and those before the plugins' |
| HookLayers.ClaimedScopeWins | agent/hook-core/src/registry.rs:56-56 | a plugin's definition that claims the user's scope is registered before the user's own |
| HookDispatcher.FilterKeepsOrder | agent/hook-core/src/dispatcher.rs:107-129 | filtering keeps matching hooks only, in order |
| HookDispatcher.FilterKeepsAllMatching | agent/hook-core/src/dispatcher.rs:107-129 | and loses none of them |
| HookDispatcher.HookDispatcher.Judge | agent/hook-core/src/dispatcher.rs:244-268 | the verdict is the first blocking answer with its reason, and Allow if and only if none blocks |
| HookDispatcher.HookDispatcher.GateTool | agent/hook-core/src/dispatcher.rs:227-269 | the same over the matched hooks of the event |
| HookDispatcher.RefusalComesFromTheTop | agent/hook-core/src/dispatcher.rs:227-269 | if any matching winner blocks, the tool is refused, in the name of a blocking winner of at least its rank |
| HookLayers.GateRefusesExactly | agent/hook-core/src/dispatcher.rs:108-269 | from the three layers to the verdict: a tool is refused exactly if a registered hook is asked, by event, depth and tool pattern, and blocks or fails with on_failure=block; in the name and with the reason of one that does |
| HookDispatcher.FailuresAreReportedExactly | agent/hook-core/src/dispatcher.rs:204-217 | an asynchronous hook that fails without an answer leaves an item unless its failures are ignored |
| HookDispatcher.HookDispatcher.RecordAsyncResult | agent/hook-core/src/dispatcher.rs:171-218 | which item an answer leaves behind, or none |
| HookDispatcher.HookDispatcher.PushDrain | agent/hook-core/src/dispatcher.rs:220-223 | the thread's queue gets the item, no other queue changes, and a new queue has capacity 0 |
| HookDispatcher.HookDispatcher.TakeDrain | agent/hook-core/src/dispatcher.rs:272-276 | the thread's queue is emptied and rendered, no other queue changes |
| HookDispatcher.OnlyTheNewestWaits | agent/hook-core/src/dispatcher.rs:220-223 | over any history a thread's queue holds just the newest item since it was last taken |
| HookDispatcher.NothingLostExactly | agent/hook-core/src/dispatcher.rs:220-223 | so nothing is lost if and only if at most one item arrives per turn |
| HookDrain.QueueHoldsTheNewest | agent/hook-core/src/drain.rs:104-114 | after any pushes the queue is the last items in order, up to its capacity but at least one |
| HookDrain.DrainQueue.TakeAll | agent/hook-core/src/drain.rs:124-126 | everything is handed out and the queue is empty |
| HookDrain.TruncateBytes | agent/hook-core/src/drain.rs:79-88 | the longest prefix of whole characters that fits, and a note |
| HookDrain.FromOutcome | agent/hook-core/src/drain.rs:53-67 | context before message, cut to size; nothing when there is neither |
| HookDrain.ChooseSuffix | agent/hook-core/src/drain.rs:133-142 | the longest suffix whose cost is within the cap, or the newest item alone |
| HookDrain.KeepsFromIsUnique | agent/hook-core/src/drain.rs:133-142 | there is only one such suffix |
| HookDrain.Render | agent/hook-core/src/drain.rs:129-155 | nothing for an empty queue, else the header and the entries of that suffix in order |
| HookDrain.RenderedLength | agent/hook-core/src/drain.rs:129-155 | the block is at most header plus cap when the newest item fits |
| HookDrain.TruncatedItemFits | agent/hook-core/src/drain.rs:46-76 | every item made from output or failure fits unless its hook's name is longer than 12242 bytes |
| HookDrain.EntryShows | agent/hook-core/src/drain.rs:146-153 | an entry names hook and kind and ends with the whole text |
| HookDrain.EntryRoundTrip | agent/hook-core/src/drain.rs:146-153 | hook, kind and text can be read back from an entry when the name has no bracket |
| HookDrain.EntriesInOrder | agent/hook-core/src/drain.rs:145-154 | entries follow each other in the order of the items |
| HookDrain.AllShownExactly | agent/hook-core/src/drain.rs:133-142 | everything that waits is shown exactly if it fits or is one item |
| StreamRunner.RunStream | agent/agent-core/src/runner_common.rs:148-195 | hands on a prefix of the events in order and ends with the completion's outcome and the last state, even with a leaked sender |
| StreamRunner.LastStateIsTheLast | agent/agent-core/src/runner_common.rs:170-173 | the state kept is that of the last event that carries one |
| StreamRunner.EndsExactly | agent/agent-core/src/runner_common.rs:182-195 | for every schedule, when a run ends as finished and with which state, as cancelled, without a state, or with which error |
| StreamRunner.AllDeliveredExactly | agent/agent-core/src/runner_common.rs:148-180 | events sent in time are all handed on if and only if no poll after completion is turned away while some are left |
| StreamRunner.ScheduleDoesNotMatter | agent/agent-core/src/runner_common.rs:148-195 | any two schedules of a run hand on the same events and end alike |
| StreamRunner.ArrivedIsRaced | agent/agent-core/src/runner_common.rs:148-180 | whatever had arrived by completion is handed on, sent in time or not |
| StreamRunner.LateEventsAreLost | agent/agent-core/src/runner_common.rs:155-156 | what arrives after the buffer was found empty is lost |
| OutputNormalizer.WebStrategyExactly | agent/agent-core/src/tool_output_normalizer.rs:282-408 | without a hint the decision table comes down to two tests, and its shell branches are dead |
| OutputNormalizer.InlineExactly | agent/agent-core/src/tool_output_normalizer.rs:282-408 | with any hint, when exactly a text stays inline |
| OutputNormalizer.HeadTailExactly | agent/agent-core/src/tool_output_normalizer.rs:282-408 | with any hint, when exactly a text is shown by its two ends |
| OutputNormalizer.PreferenceIsFollowedExactly | agent/agent-core/src/tool_output_normalizer.rs:282-408 | when exactly a preferred strategy is followed, and what is done instead |
| OutputNormalizer.TruncateExactFits | agent/agent-core/src/tool_output_normalizer.rs:424-441 | the exact cut is the text, or has exactly the allowed length |
| OutputNormalizer.HeadAndTailAreApart | agent/agent-core/src/tool_output_normalizer.rs:444-456 | head and tail are disjoint ends of the text, and something is left out exactly when it is longer than both |
| OutputNormalizer.NormalizedToolOutput.ApplyObservationBudget | agent/agent-core/src/tool_output_normalizer.rs:488-509 | cuts a truncatable tool's observation to what is left and marks it |
| OutputNormalizer.NormalizeToolOutput | agent/agent-core/src/tool_output_normalizer.rs:84-139 | strategy, builder and budget in that order |
| OutputNormalizer.OneObservation | agent/agent-core/src/tool_output_normalizer.rs:84-139 | the count is the text's length, untruncated means raw, and a truncatable tool stays within what is left |
| OutputNormalizer.OutputTells | agent/agent-core/src/tool_output_normalizer.rs:84-280 | every output tells what its strategy says: the text, its two ends, or its length, place and excerpt, cut to what is left; and keeps error flag, length, raw text and path |
| OutputNormalizer.OtherToolsAreShownInFull | agent/agent-core/src/tool_output_normalizer.rs:278-290 | all tools but the two web tools are shown in full, and those within what is left |
| OutputNormalizer.DecimalReadsBack | agent/agent-core/src/tool_output_normalizer.rs:241-241 | a length that is shown is the length |
| OutputNormalizer.DisplayStaysShort | agent/agent-core/src/tool_output_normalizer.rs:141-262 | what a user sees stays within the display limit and nine characters, but for the bare note on a large output |
| OutputNormalizer.ToolCallExecutor.Execute | agent/agent-core/src/agent/react/act_executor.rs:109-131 | the counter is threaded through the calls of a turn up to the first cancellation, which discards the results |
| OutputNormalizer.TurnStaysWithinBudget | agent/agent-core/src/agent/react/act_executor.rs:254-271 | over any turn the truncatable tools' observations add up to at most the budget |
| OutputNormalizer.ExhaustedBudgetShowsNothing | agent/agent-core/src/tool_output_normalizer.rs:488-509 | once any tools have used the budget up, a truncatable tool's observation is empty |

## Left out

- GoalRow.Apply: timestamps, SQL text and the 64-bit overflow of the row's counters are not modelled; the counters are integers.
- GoalStore.GoalStore.DeferContinuation: one step; in the source a clear between its read and its insert gives a foreign key error.
- GoalAccounting.GoalAccounting.StartWallClockIfActive: the error return of its read, after which nothing changes.
- GoalAccounting.GoalAccounting.TakeBudgetSteeringIfFlipped: the error return of its read, after which the hook ends without steering.
- GoalTools.GoalTools.UpdateGoalComplete: database errors of the first read and of the last statement, which leave the row alone.
- GoalTools.GoalTools.UpdateGoalBlocked: the same two errors.
- TokenLedger.NoTokenIsChargedTwice: covers orderly runs; which goal pays for what outside them is the subject of `GoalArming`.
- TokenLedger.TokensAreConserved: tokens only; seconds are the subject of `WallClock`.
- WallClock.SecondsStayWithinTime: no imports, and no other memory that accounts for the same thread; times are whole seconds, so the fraction that each flush drops is not modelled.
- HookLayers.RegisteredExactly: no definition claims a higher scope than its layer's; what happens then is said by `HookLayers.ClaimedScopeWins`.
- GoalArming.ArmingIsFairExactly: for a goal that has had a baseline before, the usage since the new one stays below the signed 64-bit clamp of one charge.
- GoalRuntime.ErrorSettlesTheTurn: other tasks may do anything to the goal but clear it, insert another or account for it themselves; those cases are covered by `GoalRuntime.ErrorBlocksOnlyTheBoundGoal`, `GoalRuntime.ExitNamesExactly` and the runs of `TokenLedger`.
- TurnRuns.ExitBlocksExactly: a hook is one step with the statements of other tasks inside it; status changes, starts and exits of other turns come between hooks.
- GoalService.GoalService.ResolveObjective: file names are keys of a map; a marker whose name leads out of the directory is read there by the source and is absent here.
- ObjectiveHistory.InlineMarkerReadsBackExactly: the same names are outside it.
- Exclusion.ContinuationIsExclusive: one thread, with a service that shares the lock; threads with colliding file names are the subject of `ObjectiveHistory`. Imported rows are not among its steps.
- HookDispatcher.OnlyTheNewestWaits: pushes and takes are whole steps, as the mutex makes them.
- SkillManifest.SaveManifest: the order of the lines is left open; the source sorts them.
- SkillSync.SyncIsExact: no I/O errors, and no bundled skill's backup may be named like a bundled skill; what happens then is said by `SkillSync.BackupClashLosesTheDirectory`. Every order of names is covered.
- SkillSync.PartialInstallIsNeverCompleted: takes a hash that distinguishes trees; collisions of MD5 are not modelled.
- StreamRunner.RunStream: completion fires eventually; a run that never ends and never closes its channel is not modelled.
- `GoalStore::list_all` and `find_by_goal_id`, `get_goal` and the rendering of snapshots: plain reads.
- Metrics, tracing, status notifications and the prose of the steering templates.
- Time-outs and clocks: the outcome of a lock is a parameter; that the turn-end hooks go on without the state lock is in the model, their waiting for it is not.
- Partial file writes, permissions, symbolic links and empty or non-UTF-8 skill files.
- `scan_bundled_skills`: the bundle is given as a map from names to trees.
- Process spawning, pattern matching and placeholder expansion of hooks: a hook's answer and a pattern's verdict are given.
- Cancellation inside a single tool call, the persistence of large outputs and the wording of summaries: paths and summaries are given.
- `on_goal_replaced`, `note_goal_armed_at` and the forks of `defer_continuation` at the runtime: one-line forwards.
