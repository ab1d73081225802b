# An optimistic parallel transaction executor, verified

The repository executes the transactions of a block in parallel. It works in rounds. A round flushes the
validated prefix of the block into the shared state, executes the pending transactions concurrently, and
then checks, concurrently again, whether what each of them read still stands. A transaction whose reads do
not stand is invalidated and runs again, at once or after the transactions it depends on. When ten rounds
are not enough, the rest of the block is executed synchronously.

This project models that machinery in Dafny and proves what it does, for every block, every initial state
and every interleaving of the workers: a run that ends with every transaction validated has computed the
responses and the state of running the transactions one by one. If every transaction reads what it writes
and changes its value, and none is refused in its turn, then every run of a block of up to five transactions
ends that way; and if moreover none is ever refused, and each writes the same keys whatever it reads, the
result is serial for blocks of any length, fallback included. The project also proves where the guarantee
ends: exactly when the steps of the synchronous fallback end as in the serial execution, and two blocks of
three transactions that no interleaving at all saves from a wrong result.

`dafny verify dfyconfig.toml` checks everything.

## How the files fit together

| file | what it holds |
|---|---|
| `Storage.dfy`, `Programs.dfy` | keys, words, the shared state; transactions as deterministic programs of reads and writes; serial execution; the replay lemma |
| `Table.dfy` | the multi-version store as a table, one row of versions per transaction; lookup, validation and flush on that table |
| `VersionTree.dfy`, `Store.dfy` | the classes `MultiVersionItem` and `Store`, updated in place and proved against the table |
| `Entries.dfy` | the store against an even simpler description: one entry per transaction |
| `Sessions.dfy`, `Tracer.dfy` | what a tracer records, as a value; the class `AccessListTracer` |
| `Fees.dfy`, `Accounts.dfy` | balance and nonce bookkeeping; which storage keys behave like the cells of a map |
| `Protocol.dfy` | the two concurrent phases as transition systems, one atomic access per move |
| `ExecutePhase.dfy`, `ValidatePhase.dfy`, `Termination.dfy` | what each phase keeps at every move, what it ends with, and that it ends |
| `Rounds.dfy` | the round loop: invariants over whole runs, progress, serial equivalence |
| `Liveness.dfy` | blocks whose validated prefix grows under every interleaving, so that short ones never fall back |
| `Synchronous.dfy` | the synchronous pass, and exactly when it ends as the serial execution does |
| `Steady.dfy` | blocks on which it always does, so that `ProcessAll` is serial whatever their length |
| `Fallback.dfy`, `Refusal.dfy` | two blocks that it always gets wrong, and one, refused as a whole, that it gets right |
| `Solo.dfy` | the moves of a single worker with nobody else moving, and the steps of the synchronous pass |
| `Scheduler.dfy` | the classes `DeliverTxTask` and `BlockScheduler`: task objects, store and state updated in place, workers that move in an arbitrary order |

Two ideas carry the proofs. First, a tracer takes every value from its own writes, its earlier reads or the
parent state, and never from a version; so a run depends on the parent state only, and only the verdict
"aborted" can depend on the interleaving. Second, a check that succeeds while other workers invalidate their
versions says little in general: the readset stood in the store that the phase began with. But it is sound
for a task if every task below it ends up validated, for then no version below it was touched during the
phase. This is what makes the validated prefix, and only the prefix, serial.

`BlockScheduler` keeps a ghost trace of the moves that its workers made. `ProcessAll` promises that this
trace is a run in the sense of `Rounds.dfy`, so each theorem about runs is a theorem about the objects.

## Where code, comments and tests disagree

The model follows the code.

- The tests expect `Get` to return the value of the nearest lower version (`multiversion/tracer_test.go:53-68`)
  and to panic on an estimate (`multiversion/tracer_test.go:74-76`). The code returns the value of the parent
  state in both cases, and reports an estimate on the abort channel only (`multiversion/tracer.go:336-350`).
- `multiversion/store.go:96` says that `Has` looks "at or before" an index; the code looks strictly below it.
- `scheduler/scheduler.go:349-351` says that the tasks after an invalid one are marked invalid without a check,
  and provides for a valid readset with conflicts. Every task is checked, and a valid readset never has
  conflicts, so the last branch of `shouldRerun` is dead (`VUnsettled` is never reached).
- `scheduler/scheduler.go:125` says that the fallback depends on the highest incarnation. It depends on the
  number of rounds.
- `ValidateReadset` compares with `GetState` where the store's check uses `GetValue`. They differ on balances
  and nonces, and then `ValidateReadset` panics (`Tracer.BalanceReadPanics`).
- A flush window skips a key if the highest version that is no estimate lies outside the window
  (`multiversion/store.go:304-316`), even when a validated version lies inside. A later transaction that
  writes the key unread thus hides the earlier version for good, and a transaction between the two never sees
  it. This is why progress is conditional (`Rounds.ProgressIffParentIsCurrent` gives the exact condition) and
  why the fallback is not always serial (`Synchronous.PassIsSerialIff` gives the exact condition).
- In synchronous mode a validated task whose readset does not stand any more keeps the status "validated" if
  all it depends on is validated (`scheduler/scheduler.go:357-358`), and is then skipped
  (`scheduler/scheduler.go:475-477`) although its readset is gone and its versions are estimates. This is
  `Synchronous.Skipped`.

## Model

| member | source | states |
|---|---|---|
| `Rounds.SerialEquivalence` | scheduler/scheduler.go:263-330 | For every block, initial state and interleaving: if the round loop ends with all tasks validated, all responses and the final state are those of executing the transactions one by one. |
| `Scheduler.BlockScheduler.ProcessAll` | scheduler/scheduler.go:263-339 | On the objects: what happened is a parallel run; without fallback the returned responses and the state left behind are the serial ones; with fallback, ten rounds have passed, and the pass leaves every task as the serial execution does, run or refused, if and only if each of its steps ended serially, and then responses and state are again serial. A condition on each step that does not mention the serial execution suffices, and is necessary too where the serial execution refuses nobody. A steady block of any length always comes out serial; a block of at most five updating transactions never falls back. |
| `Rounds.PrefixIsPermanent` | scheduler/scheduler.go:291-325 | Once below the first non-validated task, a task keeps its status, response, readset and versions in every later round, they are the serial ones, and the prefix never shrinks. |
| `Rounds.RunKeepsInv` | scheduler/scheduler.go:291-325 | After any number of rounds: the task and store state machine (with every version dated by the incarnation that wrote it), the serial prefix, the containment of the shared state, one run per incarnation, and no incarnation above the number of rounds, which is at most ten. |
| `Rounds.RoundFlushesWindow` | scheduler/scheduler.go:307-310 | At the start of a round exactly the keys whose highest version that is no estimate belongs to the newly validated part of the prefix are flushed. |
| `Rounds.RoundKeepsInv` | scheduler/scheduler.go:292-324 | One round, whatever happens inside its phases, keeps all of that, and after its execution phase every task has been run exactly Incarnation + 1 times. |
| `Rounds.ParentIsContained` | scheduler/scheduler.go:307-310 | A key of the shared state holds its initial value, or the value of a version, still in the store, of a task of the validated prefix. |
| `Rounds.ValidatedIsSerial` | multiversion/store.go:334-371 | With every task validated, the final flush gives every key its serial final value. |
| `Rounds.ProgressIffParentIsCurrent` | scheduler/scheduler.go:294-323 | The first non-validated task, if scheduled, ends the round validated, under every interleaving, if and only if its program is not refused and the parent state agrees with the serial prefix on every key it reads there. |
| `Rounds.FinalFlushIsSerial` | multiversion/store.go:334-371 | Whatever the statuses: if every task has ended as in the serial execution, with its serial readset, writeset and response, or refused, the final flush yields the serial state. |
| `Rounds.TopIsSerial` | multiversion/store.go:304-316 | Above such tasks, the highest version that is no estimate holds the serial value of a key, and a key without one has its initial value. |
| `Rounds.FlushIsContained` | multiversion/store.go:304-329 | A flush whose window ends at the end of such a prefix writes only values of that prefix. |
| `Synchronous.PassIsSerialIff` | scheduler/scheduler.go:295-339 | The synchronous pass after any run of the parallel loop leaves every task as the serial execution does, with its serial readset, writeset and response, or refused, if and only if each step ended serially; and then the final flush yields the serial state. The condition of the steps suffices, and is necessary too where the serial execution refuses nobody. |
| `Synchronous.SyncStepIsSerialIff` | scheduler/scheduler.go:469-521 | Above tasks that ended serially, the synchronous executeTask ends serially if and only if: the task is validated and its readset stands; or it is not skipped and all that it reads in the parent state is what the store has for it; or it is not skipped, is refused or aborts, and the serial execution refuses it, too. |
| `Synchronous.StepsAreSerialIff` | scheduler/scheduler.go:332-339 | After any number of steps the tasks up to there have ended serially if and only if each of the steps did. |
| `Synchronous.RevalidateLeaves` | scheduler/scheduler.go:348-367 | With nobody else moving, a check validates a task whose readset stands and leaves it alone; otherwise it takes the readset, turns the listed versions into estimates of the task's incarnation, adds exactly the nearest writers that are estimates or disagree to the dependencies, and lets the task wait unless it is to run again. |
| `Synchronous.PassFlushesWindow` | scheduler/scheduler.go:332-338 | The first step of the pass flushes exactly the keys whose highest version that is no estimate lies below the first task of the pass, each later step those where it lies at the task right before. |
| `Synchronous.PassRunsOnce` | scheduler/scheduler.go:469-486 | After the pass every task has been run exactly Incarnation + 1 times, and its incarnation is at most eleven. |
| `Synchronous.StepRunsOnce` | scheduler/scheduler.go:471-486 | A step runs its task at most once, as a new incarnation unless the task was pending. |
| `Synchronous.AloneIsSerialIff` | scheduler/scheduler.go:488-520 | A task executed anew above tasks that ended serially ends serially if and only if its run on the parent state stands, or leaves no response and the serial execution refuses it. |
| `Synchronous.AloneLeaves` | scheduler/scheduler.go:488-520 | What an execution leaves of a task that has no response, no readset and only estimates: its finished run, or, if it is refused or aborts, again nothing but estimates. |
| `Synchronous.SkippedIsNotSerial` | scheduler/scheduler.go:473-478 | A task that is skipped although its readset does not stand does not end serially. |
| `Steady.SteadyPassIsSerial` | scheduler/scheduler.go:295-339 | If every transaction is never refused, writes the same keys on every state, reads each of them and changes its value, then after any rounds under any interleavings the synchronous pass meets its condition at every step, and responses and state are serial, whatever the length of the block. |
| `Steady.RunKeepsSteady` | scheduler/scheduler.go:291-325 | What the rounds of such a block keep: the state is serial, validated tasks share no written key with any task between the flushed prefix and themselves, and what they read agrees with the nearest validated writer. |
| `Steady.NotSkipped` | scheduler/scheduler.go:352-363 | In such a block a stale readset is always blamed on a task that the pass has just run, so no task is skipped. |
| `Steady.PassHidesNothing` | multiversion/store.go:304-316 | In such a block nothing that the pass is about to flush is hidden. |
| `Steady.BumpsAreSteady` | multiversion/tracer.go:422-425 | Transactions that raise a counter by one, as the bookkeeping does with nonces, are of this kind. |
| `Refusal.ReaderOfRefusedAborts` | scheduler/scheduler.go:494-510 | A transaction that ran once and is refused later leaves its estimates behind: on a block of three, under every interleaving, the reader of such an estimate aborts in the synchronous pass and has no response where the serial execution gives it one. |
| `Refusal.LoneRefusalIsSerial` | scheduler/scheduler.go:492-496 | A block of one refused transaction always ends with its serial response, none, and an unchanged state. |
| `Liveness.UpdatingBlocksAdvance` | scheduler/scheduler.go:291-325 | If every transaction reads what it writes and changes its value, and none is refused in its turn, then under every interleaving n transactions are validated after at most 2n - 1 rounds, and the shared state is the serial state of the flushed prefix. |
| `Liveness.RoundAdvances` | scheduler/scheduler.go:294-323 | In such a block every round validates a ready first task, or makes a waiting one ready. |
| `Liveness.FlushIsSerialAt` | multiversion/store.go:304-329 | With no version of the new part of the window hidden, a flush takes the shared state from one serial state to the next. |
| `Liveness.ValidatedIsApart` | scheduler/scheduler.go:352-367 | In such a block a task that ends a validation phase validated shares no written key with any version that was below it when the phase began. |
| `Liveness.NoneHiddenAt` | scheduler/scheduler.go:352-367 | In such a block no task that ends a validation phase validated hides a version of the new prefix. |
| `Liveness.ToggleIsUpdating` | multiversion/tracer.go:129-140 | A transaction that turns a flag over is an example of them. |
| `Rounds.FirstCannotAbort` | multiversion/tracer.go:336-348 | That task cannot hit an estimate: it is executed with exactly the reads of its program, or refused. |
| `Rounds.StandsIffParentIsCurrent` | multiversion/store.go:235-265 | Above tasks that ended serially, a readset of parent values stands exactly if the parent agrees with the serial state on it and no estimate is in the way. |
| `Rounds.WaitingFirstIsReleased` | scheduler/scheduler.go:372-374 | If the first non-validated task is waiting when a validation phase starts, that phase releases it for rerun. |
| `Rounds.ScanIsSerial` | multiversion/store.go:81-94 | Above tasks that ended serially, a lookup finds the serial value of a key, or nothing if no lower transaction writes it, or the estimate of a refused task. |
| `Rounds.StandingIsSerial` | scheduler/scheduler.go:364-367 | Above tasks that ended serially, the readset of an executed or validated task stands if and only if the task is serial and no estimate is in the way of its reads. |
| `Rounds.FlushKeepsContained` | scheduler/scheduler.go:307-310 | The flush at the start of a round writes only values of the serial prefix. |
| `Rounds.ExecuteKeeps` | scheduler/scheduler.go:434-453 | executeAll keeps the state machine and the prefix, and leaves every task run exactly Incarnation + 1 times. |
| `Rounds.ValidateKeeps` | scheduler/scheduler.go:395-432 | validateAll keeps the state machine, may extend the prefix but never shrinks or alters it, and the extended prefix is serial. |
| `ExecutePhase.ExecStepInv` | scheduler/scheduler.go:469-521 | One atomic access of any worker of executeAll keeps what is known of all of them. |
| `ExecutePhase.ExecuteAllOutcome` | scheduler/scheduler.go:434-453 | After executeAll, in any interleaving: each scheduled task holds the readset, writeset and response of its program on the parent state, or estimates for the same keys and an abort on a lower index; all else is unchanged; a task with no estimates and no workers below it has not aborted. |
| `ExecutePhase.AbortsAreExplained` | scheduler/scheduler.go:501-507 | A task that aborts gains exactly one dependency: a transaction whose estimate was, at some moment of the phase, the nearest lower version of a key that the task read. A task that does not abort gains none. |
| `ExecutePhase.InterleavingsAgree` | scheduler/scheduler.go:488-520 | Two interleavings of one executeAll give a task the same outcome if neither aborts it, the same estimates if both do, and the same list of written keys in any case. |
| `ExecutePhase.RecordingsAgree` | multiversion/tracer.go:319-385 | Two interleavings record the same readset and writeset of every task that runs to its end, aborted or not. |
| `ValidatePhase.ValStepInv` | scheduler/scheduler.go:341-377 | One atomic access of any worker of validateAll keeps what is known of all of them, in particular what a running check says about the store the phase began with. |
| `ValidatePhase.CleanLookup` | multiversion/store.go:235-265 | Where no task below has been invalidated yet, a check sees the store the phase began with. |
| `ValidatePhase.PassedLookup` | multiversion/store.go:235-265 | A read that stands at any moment of a validation phase stood in the store the phase began with. |
| `ValidatePhase.StartNeverWaits` | scheduler/scheduler.go:352-374 | The lowest task of a validation phase never ends up waiting. |
| `ValidatePhase.FinalClassification` | scheduler/scheduler.go:341-377 | After validateAll every task is pending, waiting or validated, the returned list is exactly the pending ones, each once, and every dependency points strictly downwards. |
| `ValidatePhase.PrefixStands` | scheduler/scheduler.go:352-367 | A check that succeeded while others were invalidating still stands at the end, if every task up to this one ends validated. |
| `ValidatePhase.ValidateAllOutcome` | scheduler/scheduler.go:395-432 | The whole outcome of validateAll: classification, each task's fate, standing readsets in the validated prefix, readsets that stood at the start for all validated tasks, and exactly when the lowest task is validated. |
| `Termination.ExecuteAllEnds` | scheduler/scheduler.go:434-453 | No interleaving of executeAll has more accesses than the work it starts with. |
| `Termination.ValidateAllEnds` | scheduler/scheduler.go:395-432 | No interleaving of validateAll has more accesses than the work it starts with. |
| `Termination.ExecMoveUsesWork` | scheduler/scheduler.go:469-521 | Every access of a worker of executeAll leaves strictly less work. |
| `Termination.ValMoveUsesWork` | scheduler/scheduler.go:341-377 | Every access of a worker of validateAll leaves strictly less work. |
| `Programs.Replay` | multiversion/tracer.go:319-351 | Running a program on any state that agrees with the recorded readset reproduces readset, writeset and result. |
| `Programs.TracedIsDirect` | multiversion/tracer.go:319-385 | A traced run computes what running the program directly on the state computes, and its writeset is exactly the change of state. |
| `Programs.RunRecords` | multiversion/tracer.go:189-202 | A traced run records each key once, with the value of the parent state, and never changes what it recorded. |
| `Programs.SerialStep` | multiversion/tracer.go:319-385 | A traced run on the serial state yields the serial result and leads to the next serial state. |
| `Sessions.SessionRunRecords` | multiversion/tracer.go:319-351 | What a tracer records does not depend on the store. |
| `Sessions.SessionAbortIsExact` | multiversion/tracer.go:336-348 | A tracer whose run nobody disturbs aborts exactly if some key it recorded is blocked by an estimate below, and then on the index of such an estimate. |
| `Fallback.AlwaysFallsBack` | multiversion/store.go:304-316 | On the block of the counterexample no run, under any interleaving, ever validates all tasks. |
| `Fallback.FallbackIsNotSerial` | scheduler/scheduler.go:295-305 | After ten rounds of that block, under every interleaving, the condition of the synchronous pass fails at its first step, a task is left that is not serial, and a value that the serial execution writes is missing. |
| `Scheduler.FallbackLosesMark` | scheduler/scheduler.go:295-339 | The same for the scheduler object run on that block. |
| `Solo.AloneInOneGo` | scheduler/scheduler.go:469-521 | The accesses of executeTask, with nobody else moving, add up to the one step that the synchronous pass takes. |
| `Solo.RevalidateInOneGo` | scheduler/scheduler.go:341-377 | The accesses of shouldRerun on an executed or validated task, with nobody else moving, add up to the one step that the synchronous pass takes, and to the same answer. |
| `Solo.DecisionInOneGo` | scheduler/scheduler.go:341-377 | For an aborted, pending or waiting task those accesses change nothing, and the answer is to run it again if and only if it is aborted or pending, or waits for validated tasks only. |
| `Scheduler.BlockScheduler.ExecWorker` | scheduler/scheduler.go:469-521 | One access of executeTask on the objects is one move of the execution phase. |
| `Scheduler.BlockScheduler.ExecAccess` | multiversion/tracer.go:319-351 | One access of a running transaction on the objects is one move of the execution phase. |
| `Scheduler.BlockScheduler.ExecuteAll` | scheduler/scheduler.go:434-458 | Workers that move in any order until all are done make a complete run of the execution phase. |
| `Scheduler.BlockScheduler.ValWorker` | scheduler/scheduler.go:341-377 | One access of shouldRerun on the objects is one move of the validation phase. |
| `Scheduler.BlockScheduler.ValidateAll` | scheduler/scheduler.go:395-432 | The same for the validation phase, and the returned list is what the workers sent, in that order. |
| `Scheduler.BlockScheduler.FindFirstNonValidated` | scheduler/scheduler.go:386-393 | The first task that is not validated, or the number of tasks. |
| `Scheduler.BlockScheduler.DependenciesValidated` | scheduler/scheduler.go:233-242 | True exactly if every dependency is validated. |
| `Scheduler.BlockScheduler.FindConflicts` | scheduler/scheduler.go:190-205 | Valid exactly if the readset stands, and otherwise the indices to blame. |
| `Scheduler.BlockScheduler.InvalidateTask` | scheduler/scheduler.go:154-157 | The versions become estimates, the readset goes, the dependencies grow by those to blame. |
| `Scheduler.BlockScheduler.ShouldRerun` | scheduler/scheduler.go:341-377 | shouldRerun on a task of any status, with nobody else moving: its answer (yes if aborted or pending; if waiting, exactly if every dependency is validated), and its exact effect on task and store; a failed check may leave the status validated. |
| `Scheduler.BlockScheduler.RunTask` | scheduler/scheduler.go:488-520 | Running a task through a tracer object and publishing has exactly the effect of ExecuteAlone. |
| `Scheduler.BlockScheduler.ExecuteTaskSync` | scheduler/scheduler.go:469-521 | The synchronous executeTask, with all its branches. |
| `Scheduler.BlockScheduler.ProcessAllSync` | scheduler/scheduler.go:332-339 | The synchronous pass: flush up to each task, from 0 again the first time, and execute it. |
| `Scheduler.BlockScheduler.RunRound` | scheduler/scheduler.go:292-324 | One round on the objects is one round of a run. |
| `Scheduler.BlockScheduler.RunRounds` | scheduler/scheduler.go:291-325 | The loop stops with all tasks validated, or after exactly ten rounds with one that is not, and keeps the loop invariant. |
| `MultiVersionStore.Store.SetWriteset` | multiversion/store.go:137-159 | The row of the transaction becomes its writeset, each version with its value (zero as a deletion) and the incarnation, and the key list its sorted keys; nothing else changes. |
| `MultiVersionStore.Store.SetEstimatedWriteset` | multiversion/store.go:177-193 | The same with estimates. |
| `MultiVersionStore.Store.InvalidateWriteset` | multiversion/store.go:162-174 | Exactly the listed versions become estimates of the given incarnation, and the key list stays. |
| `MultiVersionStore.Store.RemoveOldWriteset` | multiversion/store.go:107-133 | The old key list goes, and of the old versions those that the new writeset does not overwrite. |
| `MultiVersionStore.RemovalShortcut` | multiversion/store.go:121-124 | Leaving in place what will be overwritten gives the same store as removing everything first. |
| `MultiVersionStore.Store.GetLatestBeforeIndex` | multiversion/store.go:81-94 | The version found is the one that scanning the table downwards finds first. |
| `MultiVersionStore.Store.Has` | multiversion/store.go:97-105 | True exactly if some strictly lower transaction has a version of the key. |
| `MultiVersionStore.Store.SetReadset` | multiversion/store.go:209-211 | Replaces the readset of one transaction and nothing else. |
| `MultiVersionStore.Store.GetReadset` | multiversion/store.go:213-219 | The stored readset, which may be empty, or none. |
| `MultiVersionStore.Store.ClearReadset` | multiversion/store.go:221-223 | Drops the readset of one transaction and nothing else. |
| `MultiVersionStore.Store.CheckKey` | multiversion/store.go:235-264 | A read stands exactly if it has one value, no estimate is nearest below, and the value is that of the nearest lower version, a deletion as zero, or of the parent; the conflict is exactly the nearest writer that is an estimate or disagrees. |
| `MultiVersionStore.Store.CheckReadsetAtIndex` | multiversion/store.go:225-278 | Valid exactly if every read stands; the conflicts are exactly the writers to blame, ascending, below the index; a valid readset has none. |
| `MultiVersionStore.Store.WriteLatestToStoreUntil` | multiversion/store.go:289-332 | Changes exactly the keys whose highest version that is no estimate lies in the window, to its value. |
| `MultiVersionStore.Store.WriteLatestToStore` | multiversion/store.go:334-371 | Writes the highest version that is no estimate of every key, and nothing else. |
| `Table.ScanIsNearest` | multiversion/data_structure.go:88-105 | The lookup finds the nearest lower version, and none exactly if there is none. |
| `Table.FlushWindowsCompose` | multiversion/store.go:304-316 | On an unchanged store, flushing two adjacent windows is flushing their union. |
| `Table.FullWindowIsFinalFlush` | multiversion/store.go:334-371 | A window that covers all indices is the final flush. |
| `Table.FlushIsConfined` | multiversion/store.go:304-316 | A flush changes a key only to a version in the window, and a higher version that is no estimate hides those in the window. |
| `Entries.CommandsAreEntries` | multiversion/store.go:107-193 | After any sequence of the three writeset operations, the store represents the table "index to incarnation, estimate mark, writeset"; a key has a version at an index exactly if it is listed there. |
| `Entries.ScanIsNearestEntry` | multiversion/store.go:81-94 | A lookup in the store is a downward scan of the entries, with the version that the entry prescribes. |
| `Entries.LookupAfter` | multiversion/store.go:81-193 | A store object put through any sequence of those operations answers every lookup with the incarnation, estimate mark and value of the nearest lower entry that has the key. |
| `VersionTree.MultiVersionItem.Set` | multiversion/data_structure.go:107-116 | Replaces the version at an index by one with this value and incarnation, unless the value is zero. |
| `VersionTree.MultiVersionItem.Delete` | multiversion/data_structure.go:118-124 | Replaces the version at an index by a deletion of this incarnation. |
| `VersionTree.MultiVersionItem.SetEstimate` | multiversion/data_structure.go:133-139 | Replaces the version at an index by an estimate of this incarnation. |
| `VersionTree.MultiVersionItem.Remove` | multiversion/data_structure.go:126-131 | Removes the version at an index and no other. |
| `VersionTree.MultiVersionItem.GetLatest` | multiversion/data_structure.go:51-60 | The version with the highest index, and none exactly if there are none. |
| `VersionTree.MultiVersionItem.GetLatestNonEstimate` | multiversion/data_structure.go:64-83 | The highest version that is no estimate, and none exactly if all are estimates. |
| `VersionTree.MultiVersionItem.GetLatestBeforeIndex` | multiversion/data_structure.go:88-105 | The highest version strictly below an index, and none exactly if there is none. |
| `VersionTree.InsertedLists` | multiversion/data_structure.go:107-139 | Inserting at the split position replaces one version and keeps all others. |
| `Tracer.AccessListTracer.Get` | multiversion/tracer.go:319-351 | Own write, else first read, else parent state; records the last, and reports the index of an estimate that is the nearest lower version. |
| `Tracer.AccessListTracer.Set` | multiversion/tracer.go:224-233 | Records the last write of a key and nothing else. |
| `Tracer.AccessListTracer.UpdateReadSet` | multiversion/tracer.go:189-202 | Adds a value to the reads of a key unless it is among them. |
| `Tracer.AccessListTracer.WriteAbort` | multiversion/tracer.go:83-89 | Only the first abort is kept. |
| `Tracer.AccessListTracer.Deliver` | scheduler/scheduler.go:488-505 | A transaction run through a tracer records the traced run on the parent state, and aborts exactly if a recorded key is blocked by an estimate, on the index of such an estimate. |
| `Tracer.AccessListTracer.WriteToMultiVersionStore` | multiversion/tracer.go:396-403 | Publishes exactly the recorded writeset and readset. |
| `Tracer.AccessListTracer.WriteEstimatesToMultiVersionStore` | multiversion/tracer.go:387-394 | Publishes estimates for the recorded writes, and no readset. |
| `Tracer.AccessListTracer.ValidateReadset` | multiversion/tracer.go:262-316 | Stands exactly if every read stands against the versions and GetState; otherwise the first failing key in order decides between failing, aborting and panicking; it agrees with the store's exhaustive check if and only if GetState and GetValue agree on the reads without lower version, or both reject. |
| `Tracer.AccessListTracer.ValidateRead` | multiversion/tracer.go:279-313 | One read of that validation. |
| `Tracer.StandsOverBothIffOrdinary` | multiversion/tracer.go:307-312 | A readset that one of the two validations accepts is accepted by both if and only if GetState and GetValue agree on its reads without lower version. |
| `Tracer.ValidatorsAgreeIff` | multiversion/tracer.go:262-316 | The two validations agree if and only if that holds, or neither accepts. |
| `Tracer.BalanceReadPanics` | multiversion/tracer.go:307-312 | They do not agree on a balance: the store's check says valid, the tracer panics. |
| `Tracer.AccessListTracer.HandleFee` | multiversion/tracer.go:405-414 | In range, the fee payer and the sender lose their shares of the fee (or get them back), the payer all of it without a ratio, and no other key changes. |
| `Tracer.AccessListTracer.MoveValue` | multiversion/tracer.go:117-119 | In range, the value goes from one account to the other, and no other key changes. |
| `Tracer.AccessListTracer.RaiseNonce` | multiversion/tracer.go:107-115 | The nonce of the sender goes up by one, unless the sender has code and creates nothing. |
| `Tracer.AccessListTracer.UpdateAndSetBalance` | multiversion/tracer.go:416-420 | One balance falls by the amount, as a hash of its magnitude; no other key changes. |
| `Tracer.AccessListTracer.UpdateAndSetNonce` | multiversion/tracer.go:422-425 | One nonce goes up by one; no other key changes. |
| `Tracer.AccessListTracer.CaptureStart` | multiversion/tracer.go:91-120 | In range, each account: the payer and the sender lose their shares of the price of all gas, `from` loses the value and `to` gains it, whichever of them coincide; the nonce of the sender goes up by one unless it has code and creates nothing. |
| `Tracer.AccessListTracer.CaptureCall` | multiversion/tracer.go:167-177 | A call moves its value from caller to callee, in range, and records nothing at all if there is none or the accounts coincide. |
| `Tracer.AccessListTracer.CaptureTxEnd` | multiversion/tracer.go:247-259 | In range, the payer and the sender get back their shares of the price of the gas that is left. |
| `Tracer.AccessListTracer.CaptureTransaction` | multiversion/tracer.go:91-259 | Over start, calls and end: what each account has lost and gained, the nonce of the sender, and that the tracked balances together fall by exactly the price of the gas used. |
| `Fees.BalancesLoseExactlyTheFee` | multiversion/tracer.go:91-120 | The same as a law of the recorded sets, for every aliasing of payer, sender, from and to. |
| `Fees.EachBalanceAfter` | multiversion/tracer.go:91-259 | For every account, and whichever accounts coincide: its balance after a transaction is the one before, less its share of the price of all gas, plus its share of the price of the gas left, plus what the transfers bring it less what they take. |
| `Fees.BigToHashIsMagnitude` | multiversion/tracer.go:418-419 | A number is stored by its magnitude, up to multiples of 2^256. |
| `Fees.FeeIsExactIffNoWrap` | multiversion/tracer.go:91-120 | While no balance leaves (-2^256, 2^256), the tracked balances lose exactly the price of the gas used if and only if no balance leaves [0, 2^256) on the way, and less otherwise. |
| `Fees.DebitIsExactIffInRange` | multiversion/tracer.go:416-420 | One debit takes exactly its amount out of the total if and only if the balance stays in [0, 2^256). |
| `Fees.StepsCompose` | multiversion/tracer.go:405-425 | Bookkeeping steps one after the other are the steps of the concatenated list. |
| `Accounts.NonceRoundTripsIffSmall` | multiversion/storage_key.go:63-78 | A word stored as a nonce reads back if and only if it is at most 2^63. |
| `Accounts.AccountState.SpecialReads` | multiversion/storage_key.go:52-71 | What the special slots of an account show: code hash (twice), code size, zero, balance, nonce. |
| `Accounts.AccountState.SetValue` | multiversion/storage_key.go:52-82 | Writing a key changes no other key, and the key reads back the value if and only if it is no code or self-destruct key (or held the value already) and no large nonce. |

## Left out

- The EVM, gas metering, receipts, signatures, and the internals of StateDB (Finalise, snapshots, tries): a
  transaction is a deterministic program whose reads and writes all go through the tracer. Its response is
  opaque data. Each task's private copy of the state (`scheduler/scheduler.go:490`) goes with them.
- SELFDESTRUCT (`multiversion/tracer.go:178-183`), which aborts with a dependency on the transaction itself.
- Opcode decoding and stack positions in CaptureState: the opcodes are abstract reads, writes and transfers.
- Goroutine pools, channels, wait groups and mutexes as such: what is kept are the interleavings that they
  permit and the barriers between the phases. Accesses that no other worker can observe are merged into one
  move with a neighbour: a task's own fields other than its status, its own readset and key list, its status
  in the execution phase (where no worker reads a status), and the send on the result channel.
- In the concurrent phases the tracer of a worker is a session value carried by the worker's stage; the
  tracer object is used where a task runs alone. `Tracer.AccessListTracer.Get` and the move of a worker have
  the same specification, `SessionRead`.
- Serial equivalence of the synchronous fallback without a condition: it is false, as
  `Fallback.FallbackIsNotSerial` and `Refusal.ReaderOfRefusedAborts` show. `Synchronous.PassIsSerialIff` is
  exact about how the tasks end; values that coincide although a task did not end serially are not counted.
- `Liveness.UpdatingBlocksAdvance`: its condition on the block is sufficient, and not claimed to be necessary;
  a transaction that moves no value writes balances back unchanged and does not meet it. The condition that is
  exact, round by round, is that of `Rounds.ProgressIffParentIsCurrent`.
- `Steady.SteadyPassIsSerial`: its condition on the block is sufficient, and not claimed to be necessary.
- `maxIncarnation` and UsedGas, which nothing else depends on. The counter `runs` of a task is ours.
- Absolute indices that differ from positions: `processor/processor.go:51-53` makes them equal.
- Errors of executeAll and validateAll: they are always nil.
- The B-tree of a key is the sorted sequence it enumerates; its balancing is not modelled.
- The string encoding of storage keys: a key is an address and a slot, and any total order of keys will do.
- `Storage.StateDB` takes every key as the cell of a map. `Accounts.AccountState.SetValue` says for which keys
  and values that is so; what a nonce beyond 64 bits becomes follows the low-word behaviour of big integers.
- CalcFeeWithRatio is not part of this model: how a ratio splits a fee is a function of the message that is
  assumed to add up to the fee.
- `Fees.BalancesLoseExactlyTheFee`: assumes that no balance leaves [0, 2^256) on the way, as beyond that
  range the code stores the magnitude of the number; `Fees.FeeIsExactIffNoWrap` says that this is necessary
  as long as no number leaves (-2^256, 2^256).
- GetLatest and GetAllWritesetKeys of the store, `txIterateSets`, ValidGet, getData and
  parseValueAndUpdateReadset: not called by the modelled code, or never used.
- Validation data, chain access, contracts, fixtures and the processor wrapper: input and output.
