# Verified model of the operations server

The server hands shell commands to remote runners and keeps the records around
them. This project models its protocols in Dafny and proves what they promise.
Nothing here is executed; every claim is checked by the verifier
(`dafny verify dfyconfig.toml`).

| files | what they model |
|---|---|
| `Queue`, `QueueInvariant`, `QueueAgreement`, `QueueTheorems`, `QueueReplies`, `QueueRuns`, `QueueLiveness`, `QueueStore` | the lease-based job queue: claims in two phases, renewals, results with receipts, reconciling, cancelling |
| `QueueSplit`, `QueueRaces` | the queue's sweep and cancel statement by statement: what they keep, and the runs that break the rest |
| `Control`, `ControlTheorems`, `ControlReplies`, `ControlStore` | what creates executions: runbook runs with approvals, raw commands, scheduled runs, and the idempotency keys of the first two |
| `Audit` | the audit hash chain: append, verify, backfill |
| `Runbook`, `Shell` | rendering a runbook's command, and how a POSIX shell reads the result |
| `Rebind` | the SQL placeholder rewriter |
| `Schedule` | the interval scheduler with any number of loops |
| `Placement`, `Paths`, `Backup`, `BackupTheorems`, `BackupRoundTrip` | backup, verification and restore, and the rollback of a restore |
| `Artifacts`, `ArtifactsTheorems` | moving artifacts between the local store and an object store |
| `RateLimit` | the bounded rate limiter |
| `Common`, `Arith` | shared vocabulary, multiples and quotients |

A protocol is written twice. A state machine over the tables (`Queue.Next`,
`Control.After`, `Schedule.After`, `Audit.After`) says what each transaction,
and each statement outside a transaction, does; classes with the tables as
fields (`JobStore`, `RequestStore`, `AuditLog`, `SchedulerStore`) do the same
work statement by statement. Each method that stands for a request or a cycle is
proved to take the machine's step, or its steps, to keep the invariants, and to
send a reply a caller can rely on. The theorems are about runs of the machine:
sequences of steps in any order, from the empty database or from any state that
satisfies the invariant.

What a request decides is said a second time, column by column and without the
conditions and rows the machine is built from (`QueueReplies`, `ControlReplies`,
and the contracts of the methods themselves), and run theorems follow it back:
a success to the report it rests on (`SuccessesAreReported`), a job to the read
that offered it (`JobsWereOffered`), an execution to the request that asked for
it (`WhatRunsWasAskedFor`).

## Results that differ from what one might expect

Where a property fails of the code, there is a run or an input that shows it
and a condition that decides exactly when it holds. The condition is read off
the step before it is taken; for a run it is that no step of it is such a one.

* The background sweep (`apps/api/automation.go:235-239`) passes the plain
  handle, so its read and its updates interleave with other requests. Over all
  runs, an unexpired lease without an accepted result stays in its row exactly
  when no update of such a sweep reaches the row while it runs, and until then
  nobody else gets the target (`ExclusionExactly`); a run from the empty
  database grants a target again before its first lease expires
  (`SplitSweepGrantsTwice`). Waiting rows keep an attempt exactly when no such
  update gives a row back after its last attempt began (`ReadyExactly`,
  `SplitSweepStrandsWork`); a row given back so blocks its execution for ever
  (`StrandedForever`). Every execution agrees with its targets all along exactly
  when no such update dead-letters a running execution's last open target
  (`AgreementExactly`; `SplitSweepBreaksAgreement` is a run from the empty
  database in which one does), and the next reconcile puts it right
  (`ReconcileSettles`). The attempt bound, the work measure and the receipt
  properties hold of these runs too, and no work is stuck after any of them that
  strands no row (`NoStuckWorkFromStart`).
* Cancelling is two statements, the second one's error ignored
  (`apps/api/executions.go:354-366`). The invariant allows for it: the targets of
  an execution whose cancel is half done may have any status. Over all runs,
  every running target's execution is active exactly when no claim is granted
  after its execution ended (`RunningExactlyFromStart`,
  `SplitCancelRunsCancelledWork`).
* Audit events written outside a transaction look at the head first and insert
  later, and each sorts by its own clock reading. Collisions apart, the log
  verifies all along exactly when every row inserted links to the end and lands
  there (`WritesVerifyExactly`); two writers that look before either inserts fork
  the chain (`InterleavedWritersFork`).
* The scheduler's claim does not compare the value it read. A schedule moves to
  its next instant exactly when the clock has not passed the instant the loop
  worked out (`ClaimMovesToNext`); loops that stall longer can start it twice at
  one moment (`StalledLoopsStartTwice`), and each such late start adds one to the
  bound on starts (`StartsAreBounded`).
* Of the places the lexer reads, a quoted value is read back literally exactly in
  those outside quotes, escapes and comments, at any depth of command
  substitutions (`QuotingWorksExactlyInPlainText`).
* A published backup verifies exactly when the copied database is sound and no
  kept path turns unsafe once backslashes count as slashes
  (`PublishedAcceptedExactly`, `BackslashNameIsRejected`).
* Local artifact files are named by the last segment of the id alone, so a
  restore gives every entry back exactly when no two ids end alike
  (`RestoredExactlyWhenNamesDiffer`, `PrefixedIdsCollide`).
* The rewriter lets the star that opens a block comment close it. A query is cut
  as SQLite cuts it exactly when none of its tokens but the last is `/*/`
  (`SqliteCutExactly`, `BlockCommentClosesEarly`). PostgreSQL has more rules of
  its own: a query is cut as PostgreSQL cuts it exactly when no token starts at a
  backtick, a bracket, an escape string or a dollar quote, and no comment closes
  early, holds another comment or, in a line, a carriage return
  (`PostgresCutExactly`); so the parameter of `a[?]` stays unnumbered
  (`SubscriptHidesParameter`).
* A restore without force that fails leaves everything as it was unless the
  database was placed, the artifacts could not be, and the database could not be
  removed again (`Restore`).

## Model

| member | source | states |
|---|---|---|
| QueueTheorems.LeaseExclusionFromStart | apps/api/jobs.go:64-92 | from the empty database, after any run at all and a job reply for an execution whose cancel is not half done, any further transactional run that stays within the lease and gets no result for it accepted leaves the row with that runner and lease, and hands the target to nobody else |
| QueueTheorems.LeaseExclusion | apps/api/jobs.go:394-397 | the same from any state every step keeps in which a lease is held until x, however it was granted or renewed, and no cancel of its execution is half done, under any interleaving of two-phase claims, renewals, results, cancels and transactional reconciles |
| QueueTheorems.LeaseExclusionAfter | apps/api/jobs.go:84-92 | the same for the lease a particular job reply promises |
| QueueTheorems.GrantHolds | apps/api/jobs.go:82-84 | a job reply, or a successful renewal, puts runner and lease in the row until 300 seconds from now |
| QueueTheorems.HoldStep | apps/api/queue.go:14-22 | no single transaction but an accepted result takes an unexpired lease away |
| QueueSplit.ExclusionExactlyFromStart | apps/api/jobs.go:64-92 | over all steps, split sweeps and split cancels included: from the empty database, after any run and a job reply, while the lease is unexpired and its result not accepted, the row carries that runner and lease exactly when no sweep's update has reached it while it ran, and until then nobody else gets the target |
| QueueSplit.ExclusionExactly | apps/api/queue.go:44-66 | the same from any state in which the lease is carried |
| QueueSplit.CarriesStep | apps/api/queue.go:62-65 | one step: the lease goes exactly when a sweep's update reaches its running row, and then it never comes back; no step grants the target meanwhile |
| QueueTheorems.RowEffect | apps/api/jobs.go:260-286 | every step does to a target row one of eight named things or nothing, each under its guard |
| QueueTheorems.ExactlyOnce | apps/api/jobs.go:214-243 | replays of an accepted result, any number at any later points of any run, change no state, and each is answered with the first answer |
| QueueTheorems.ReplaysAreIdle | apps/api/jobs.go:214-230 | the run with the replays ends where the run without them ends |
| QueueTheorems.OtherPayloadRefused | apps/api/jobs.go:219-222 | any other payload for the same target and lease is refused for ever, unchanged |
| QueueTheorems.SupersededForever | apps/api/jobs.go:238-243 | a lease the row has lost never comes back, and a result sent under it changes nothing at all |
| QueueTheorems.MoveCostsWork | apps/api/jobs.go:66-92 | 2·(max−attempt)+(1 if running), 0 when terminal, never rises and falls with every claim, reclaim, result, reconcile or cancel, split sweeps included; only a cancel may find it 0 already; attempt rises by one exactly on a grant |
| QueueTheorems.TransactionalMoveCostsWork | apps/api/queue.go:44-66 | with whole sweeps and cancels every move costs work |
| QueueTheorems.AttemptsCountGrants | apps/api/jobs.go:84 | over every run the attempt counter counts the leases given and never exceeds the budget |
| QueueTheorems.MovesBounded | apps/api/queue.go:44-66 | over every run a target moves at most as often as its work allows, plus one last cancel |
| QueueTheorems.TransactionalMovesBounded | apps/api/jobs.go:256-286 | with whole sweeps and cancels, at most 2·max+1 moves |
| QueueRuns.SuccessesAreReported | apps/api/jobs.go:189-307 | after any run, split sweeps and cancels included, a target has succeeded only if a stored result for its own lease, from its own runner and execution, says exit code 0 and no error; and whenever one says so the target has succeeded under that lease, or was cancelled since |
| QueueRuns.SucceededExecutionsAreReported | apps/api/jobs.go:311-335 | after any run an execution has succeeded only if every one of its targets has such a result |
| QueueRuns.JobsWereOffered | apps/api/jobs.go:64-105 | in any run every job goes back to an earlier read of the same request, at which its runner was active, of the execution's organisation and in scope of the target's server, the target was due with an attempt left, and none offered was asked for earlier |
| QueueReplies.ResultMeans | apps/api/jobs.go:208-366 | a result in columns: replayed, in conflict, not from the runner that works on the target, overtaken, or taken; a taken one succeeds exactly with exit code 0 and no error, is tried again while attempts are left and is dead-lettered otherwise, and closes its execution exactly when nothing else of it is open |
| QueueReplies.AnswerIsOffered | apps/api/jobs.go:64-74 | the claim's query in columns: an oldest row that is due, has an attempt left and belongs to an active execution, for an active runner of its organisation with the server in scope |
| QueueReplies.ClaimMeans | apps/api/jobs.go:82-105 | the claim's updates in columns, and 409 exactly when the row is no longer as it was read |
| QueueReplies.RenewalMeans | apps/api/jobs.go:393-406 | 200 exactly for the runner that works on the target under the lease, and then the expiry lies 300 seconds ahead |
| QueueReplies.ReconcileMeans | apps/api/queue.go:11-100 | every ended lease of an active execution is taken back, to its next attempt or the dead letters, every left-over execution has failed, and nothing else changes |
| QueueReplies.SweepMeans | apps/api/queue.go:44-66 | one update of a sweep goes by the counters it read, whatever the row has become, and is stopped only by the row not running |
| QueueReplies.CancelWritesOut | apps/api/executions.go:336-369 | only an execution that has not started can be cancelled, and only by its requester or a manager; otherwise 400 or 403 and nothing changes |
| QueueReplies.CreationMeans | apps/api/executions.go:225-279 | 201, 400 or 500 exactly when; the new rows in columns; nothing else changes |
| QueueReplies.BackoffTable | apps/api/queue.go:78-89 | the waits: 1, 2, 4, 8, 16, 32 and then 60 seconds |
| QueueAgreement.AgreementExactly | apps/api/queue.go:44-100 | over all runs, split sweeps and split cancels included: every execution agrees with its targets all along, unless its cancel is half done, exactly when no sweep's update dead-letters the last open target of a running execution |
| QueueAgreement.AgreementStep | apps/api/automation.go:235-239 | one step of that |
| QueueRaces.SplitSweepBreaksAgreement | apps/api/automation.go:235-239 | a run from the empty database after which an execution counts as running with no target open |
| QueueAgreement.CoherenceRun | apps/api/queue.go:91-98 | what every run keeps, whatever its steps: executions agree with their targets but that a running one may have nothing open, and then it has a failed target for the next reconcile to find |
| QueueAgreement.CoherenceStep | apps/api/queue.go:91-98 | one step of that |
| QueueAgreement.ReconcileSettles | apps/api/queue.go:91-98 | after a transactional reconcile every execution of the organisation agrees with its targets again, whatever sweeps wrote before |
| QueueAgreement.InvStep | apps/api/jobs.go:256-335 | a step keeps the whole invariant (agreement, an attempt left for every waiting row, the shape of rows) exactly when it neither closes an execution that way nor gives a row back after its last attempt began |
| QueueAgreement.InvRun | apps/api/automation.go:218-241 | over all runs the invariant holds all along exactly when no step is such a one |
| QueueAgreement.SoundRun | apps/api/automation.go:218-241 | over every run that strands no row, what liveness rests on holds, agreement broken or not |
| QueueInvariant.BaseStep | apps/api/queue.go:46-65 | the part that needs no transactions: attempt budget, a running row has runner, lease and an expiry within 300 seconds, leases are issued, receipts belong to issued leases |
| QueueInvariant.BaseRun | apps/api/automation.go:235-239 | the same over runs with split sweeps and split cancels |
| QueueAgreement.CreateKeeps | apps/api/executions.go:259-279 | a new execution is queued and its targets pending with attempt 0 |
| QueueAgreement.ClaimKeeps | apps/api/jobs.go:84-93 | a claim starts its execution if that is active, and keeps everything else in agreement |
| QueueAgreement.RenewKeeps | apps/api/jobs.go:394-397 | a renewal, of an expired lease too, keeps everything |
| QueueAgreement.SubmitKeeps | apps/api/jobs.go:256-335 | a result retries, dead-letters or finishes its target and closes the execution exactly when no target is open |
| QueueInvariant.SubmitOutcome | apps/api/jobs.go:256-335 | a result changes nothing, or finishes its one row and at most closes its running execution, which then has no open target |
| QueueAgreement.ReconcileKeeps | apps/api/queue.go:44-100 | a reconcile inside a transaction keeps everything |
| QueueAgreement.CancelKeeps | apps/api/executions.go:354-366 | so does a cancel whose two updates follow one another directly |
| QueueAgreement.CancelExecKeeps | apps/api/executions.go:354-365 | and the first update alone: from then on the cancel is half done |
| QueueAgreement.CancelTargetsKeeps | apps/api/executions.go:366 | and the second update, at any later time, after which every target of the execution is cancelled |
| QueueAgreement.OpenRowIsActive | apps/api/jobs.go:93 | after any run an open target's execution is active unless its cancel is half done, so the claim's second update, whose row count is not looked at, finds its row |
| QueueAgreement.RunningRowRuns | apps/api/jobs.go:325-333 | after any run a leased target's execution is running unless its cancel is half done, so the finalising update finds its row |
| QueueInvariant.BackoffBound | apps/api/queue.go:78-89 | a retry delay lies between one and sixty seconds |
| QueueLiveness.NoStuckWorkFromStart | apps/api/jobs.go:66-73 | after every run from the empty database in which no sweep's update gives back a row whose last attempt began: once a lease time has passed every open target of an execution nobody cancelled is a legal answer for each runner in scope, or the next reconcile dead-letters it |
| QueueLiveness.NoStuckWork | apps/api/queue.go:45-66 | the same of any sound state: rows in shape, an attempt left for every waiting one, executions coherent; a sweep that closed an execution's last target and half-done cancels of other executions do not matter |
| QueueLiveness.EveryOpenTargetCanFinish | apps/api/queue.go:45-66 | from every sound state, every such target with a runner in scope can be brought to an end by polling alone |
| QueueLiveness.EveryExecutionCanEnd | apps/api/queue.go:91-98 | from every sound state, every execution that nobody cancelled, and whose open targets all have a runner in scope, can be brought to succeeded or failed by polling alone, also one a sweep left running with nothing open |
| QueueLiveness.PolledRun | apps/api/jobs.go:84-93 | polling opens no closed target and cancels nothing |
| QueueLiveness.RoundUsesAnAttempt | apps/api/jobs.go:64-92 | waiting, reading and committing gives the target one more lease |
| QueueSplit.UninterruptedSweepReconciles | apps/api/automation.go:218-241 | a sweep that nothing interrupts ends in the state of the transactional reconcile |
| QueueRaces.SplitSweepGrantsTwice | apps/api/automation.go:235-239 | a run from the empty database in which a target is granted again before its first, renewed lease expires |
| QueueSplit.ReadyExactly | apps/api/queue.go:44-66 | over all steps: every waiting row keeps an attempt all along exactly when no sweep's update gives a row back after its last attempt began |
| QueueInvariant.ReadyStep | apps/api/queue.go:44-66 | one step of that |
| QueueRaces.SplitSweepStrandsWork | apps/api/automation.go:235-239 | a run from the empty database in which a sweep reads a row on its second attempt and gives it back on its third |
| QueueSplit.StrandedForever | apps/api/queue.go:91-98 | a target stranded so stays so whatever else happens, and its execution stays running |
| QueueSplit.RunningExactlyFromStart | apps/api/jobs.go:84-93 | over all steps from the empty database: every state has only running targets of active executions exactly when no claim is granted on an execution that is no longer active |
| QueueSplit.RunningStep | apps/api/executions.go:354-366 | no other step breaks it |
| QueueRaces.SplitCancelRunsCancelledWork | apps/api/executions.go:354-366 | a run from the empty database in which a target of a cancelled execution runs |
| QueueStore.RetryBackoffSeconds | apps/api/queue.go:78-89 | the doubling loop returns min(60, 2^(attempt−1)), and 1 before the second attempt |
| QueueStore.ApplyRowsIsReconcile | apps/api/queue.go:44-73 | updating the rows read one after another is the reconcile of all lapsed rows at once |
| QueueStore.InsertTargets | apps/api/executions.go:271-279 | inserts one pending row for each server, or nothing when an id or a server repeats |
| QueueStore.JobStore.CreateExecution | apps/api/executions.go:225-279 | takes the creating step, keeps the invariant, and leaves the rows CreationMeans writes out |
| QueueStore.JobStore.OldestEligible | apps/api/jobs.go:64-74 | the claim's query: an oldest row offered to this runner in columns, or none exactly when none is |
| QueueStore.JobStore.ReadClaim | apps/api/jobs.go:64-81 | 404 exactly when every row fails one of the query's conditions (runner active, of the organisation, in scope; execution active; row due, with an attempt left, let through by the filter); otherwise the claim goes on with a row that meets them all and is oldest |
| QueueStore.JobStore.CommitClaim | apps/api/jobs.go:82-105 | takes the claim's step, keeps the invariant and leaves the columns ClaimMeans writes out; a job reply names a lease no row had, held in its row for 300 seconds; any other reply changes no row |
| QueueStore.JobStore.RenewLease | apps/api/jobs.go:393-406 | whoever carries the lease, expired or not, is told 200 and holds it for 300 seconds more; no other column or row changes, and nobody else is told 200 |
| QueueStore.JobStore.SubmitResult | apps/api/jobs.go:189-366 | takes the result's step and keeps the invariant; a 200 that is no replay leaves the row succeeded exactly with exit code 0 and no error, and otherwise pending again or dead-lettered by its attempts; it has its receipt from now on, any other reply changes nothing, and each refusal has its own condition |
| QueueStore.JobStore.ReconcileExpiredLeases | apps/api/queue.go:11-76 | the reconcile of one organisation keeps the invariant, leaves the columns ReconcileMeans writes out, no expired lease, and no failed execution without open targets that still counts as active |
| QueueStore.JobStore.UpdateAll | apps/api/queue.go:44-73 | the loop over the rows read |
| QueueStore.JobStore.UpdateExpired | apps/api/queue.go:45-66 | one guarded update, dead-lettering or retrying by the counters that were read |
| QueueStore.JobStore.SweepOne | apps/api/automation.go:235-239 | one update of the background sweep, which keeps the rows' shape |
| QueueStore.JobStore.BeginCancel | apps/api/executions.go:336-365 | the checks and the first update: refused, or the execution is cancelled and its targets not yet |
| QueueStore.JobStore.FinishCancel | apps/api/executions.go:366 | the second update, for every target whatever its status |
| QueueStore.JobStore.CancelExecution | apps/api/executions.go:336-369 | 200 exactly for the requester or a manager of an execution that has not started; it leaves the execution cancelled, and all its targets too unless the second update failed, which leaves the cancel half done; any other reply changes nothing; the invariant is kept |
| ControlTheorems.SensitiveRunsAreApproved | apps/api/runbooks.go:468-551 | after any run, every runbook execution in production at high or critical risk, whichever of the three ways created it, points to an approval approved before expiry by a user other than the requester who was senior when the request was checked, and carries what was frozen; no approval has two executions or two decisions, and senior users took them all |
| ControlReplies.WhatRunsWasAskedFor | apps/api/runbooks.go:828-880 | after any run every execution was started by a request that needed no approval, with that request's own columns, or by the scheduler at a risk that is not high or critical; or it was approved, and carries the organisation, user, command, targets, environment and risk of the request that asked |
| ControlReplies.FrozenAtRequest | apps/api/runbooks.go:489-551 | from the request's transaction on, whatever happens before the decision: the execution carries the plan's own command, targets, environment and risk, and the request's organisation and user |
| ControlReplies.ApprovalOrigin | apps/api/runbooks.go:489-551 | every approval goes back to a request that had to be approved and gave a reason, and says what it planned |
| ControlReplies.CommitReplies | apps/api/runbooks.go:463-623 | a request's transaction in columns: refused exactly when a check fails, a repetition or a conflict exactly when its key is in use, and otherwise one approval exactly when it must be approved, or one execution, with the plan's columns |
| ControlReplies.LookupMeans | apps/api/executions.go:203-223 | the look at the key in columns: the user's own answer, a conflict with another payload, or the request goes on |
| ControlTheorems.ApprovalInvRun | apps/api/runbooks.go:765-811 | over any run the frozen columns stay and no decision is taken back |
| ControlTheorems.ApprovalInvStep | apps/api/runbooks.go:765-811 | every step keeps the approval invariant |
| ControlTheorems.ApproveKeeps | apps/api/runbooks.go:778-803 | a decided approval gets the one execution it deserves, and no other execution names it |
| ControlTheorems.DecideKeeps | apps/api/runbooks.go:911-932 | a decision touches one pending approval and spoils no other's |
| ControlTheorems.DraftIsSafe | apps/api/runbooks.go:468-496 | no request inserts a sensitive execution without an approval |
| ControlTheorems.KeysAnswerOnce | apps/api/migrate.go:132-153 | in any run, with lookups and inserts interleaved, at most one answer to a key of an organisation and table created anything, all successful answers to it carry one body, and what the body names exists |
| ControlTheorems.KeysMakeOnce | apps/api/migrate.go:132-153 | in any run, with lookups and inserts interleaved, at most one execution or approval is made under one key of an organisation and table |
| ControlTheorems.KeyInvRun | apps/api/executions.go:293-305 | a stored key row is never changed or lost |
| ControlTheorems.ControlStep | apps/api/runbooks.go:533-544 | every step keeps both the approval and the key invariant |
| ControlTheorems.RetryIsAnswered | apps/api/runbooks.go:625-644 | at any later time the same user's retry gets the stored body, and with another payload a conflict |
| ControlTheorems.CreatedExactlyWhenAnswered | apps/api/runbooks.go:533-544 | a request changes the tables exactly when it is answered created, by exactly the resource named; with a key in use it creates nothing, and another user or payload gets a conflict |
| ControlTheorems.CommitIsAnswered | apps/api/executions.go:293-311 | what a caller may rely on after its request: created exactly when the tables changed, what is named is new and not sensitive, and a key in use made nothing |
| ControlStore.RequestStore.BeginRequest | apps/api/executions.go:203-223 | refused, replayed, in conflict or under way, each exactly when; a replayed answer is the one stored for this user and payload, and what it names exists |
| ControlStore.RequestStore.InsertKeyOrRollBack | apps/api/executions.go:293-305 | the key insert, or the rollback and second lookup |
| ControlStore.RequestStore.RunRunbook | apps/api/runbooks.go:463-623 | the checks of a runbook run in order, and its transaction, with the answers and rows CommitReplies writes out |
| ControlStore.RequestStore.RunCommand | apps/api/executions.go:225-311 | the checks of a raw command, and its transaction, likewise |
| ControlStore.RequestStore.CommitRequest | apps/api/runbooks.go:533-623 | takes the request's step and keeps the invariants; an approval created has the request's organisation and user and the plan's risk, command, targets and environment, and an execution created likewise, a raw command the request's own; every other answer has its condition |
| ControlStore.RequestStore.ReadApproval | apps/api/runbooks.go:736-769 | lets through exactly a senior user of the organisation who did not ask for the approval, and what it has read is what the request froze |
| ControlStore.RequestStore.UpdateApproval | apps/api/runbooks.go:778-792 | the guarded update shared by both decisions, with the decider's own seniority recorded |
| ControlStore.RequestStore.DecideAndRun | apps/api/runbooks.go:771-812 | the update, the execution, and the rollback when it cannot be made |
| ControlStore.RequestStore.CommitApproval | apps/api/runbooks.go:771-812 | decision and execution together, exactly when the approval is pending and not expired and the execution can be made, or neither: the execution is what the approval froze, the approval is proper, and no other execution has it |
| ControlStore.RequestStore.DenyApproval | apps/api/runbooks.go:882-936 | marks one approval and runs nothing, exactly when a senior user gives a note and the approval is pending and not expired; a refusal changes nothing |
| ControlStore.RequestStore.ExecuteScheduledRun | apps/api/automation.go:325-382 | adds one execution that is not sensitive and needs no approval, or nothing, exactly by the guards; the invariants are kept |
| Audit.HeadFixesLog | apps/api/helpers.go:102-118 | unless two of their events collide, two verified logs with one head hash are equal, in length and in all eleven fields of every event |
| Audit.VerifyAuditHashChain | apps/api/helpers.go:203-224 | accepts exactly the logs whose every row names the hash of the row before it and carries its own, not empty; otherwise stops at the first bad row |
| Audit.WritesVerifyExactly | apps/api/helpers.go:90-145 | over any interleaving of writers in and outside transactions, unless two events collide, the log verifies all along exactly when every row inserted links to the end and lands there |
| Audit.InsertVerifiesExactly | apps/api/helpers.go:124-145 | unless it collides with an event of the log, a row keeps a verified log verified exactly when the hash its writer saw is still the head and it sorts last |
| Audit.EarlierBreaks | apps/api/helpers.go:148 | a row that lands before others breaks the chain, whatever it links to |
| Audit.InterleavedWritersFork | apps/api/helpers.go:90-95 | two writers that look before either inserts fork the chain, though each row sorts last |
| Audit.BackfillVerifiesExactly | apps/api/helpers.go:163-201 | after a backfill the log verifies exactly when every row that had a hash fitted |
| Audit.BackfillCompletesAVerifiedPrefix | apps/api/helpers.go:188-199 | a verified prefix with unhashed rows after it verifies |
| Audit.FillKeepsRows | apps/api/helpers.go:191-197 | a hashed row is untouched, and of the others only the link and the hash change |
| Audit.FillIsIdempotent | apps/api/helpers.go:191-197 | a second backfill changes nothing |
| Audit.OnePassIsEachAlone | apps/api/helpers.go:188-199 | one pass over all organisations does to each what a pass over it alone does |
| Audit.BackfillAuditHashChain | apps/api/helpers.go:188-199 | the loop with one remembered hash for each organisation, in place |
| Audit.BackfillOne | apps/api/helpers.go:190-198 | one turn of it |
| Audit.AuditLog.WriteAuditEvent | apps/api/helpers.go:124-145 | inside a transaction: the row carries the caller's fields, the head and its own hash, all other rows stay in order, and the log still verifies exactly when the row sorts last |
| Audit.AuditLog.InsertAuditEvent | apps/api/helpers.go:136-144 | the same for a hash seen earlier, after every row of an earlier time or the same time and a smaller id and before all others: it verifies exactly when nothing came between as well |
| Shell.ValuesCannotChangeStructure | packages/runbooks/runbook.go:260-270 | for a template whose tokens all stand outside quotes, escapes and comments, inside command substitutions or not, any two sets of values give the same words, operators and substitutions in the same places |
| Shell.RenderedCommandReads | packages/runbooks/runbook.go:265-268 | such a command is read as the template is read, each value literally in its place |
| Shell.QuotingWorksExactlyInPlainText | packages/runbooks/runbook.go:331-333 | wherever the standard says what a quote means and the lexer reads on, a quoted value is read back as all its characters, literally, exactly where the lexer is outside quotes, escapes and comments |
| Shell.LexQuoted | packages/runbooks/runbook.go:331-333 | the positive half, for every value |
| Shell.QuotingFails | packages/runbooks/runbook.go:331-333 | in every other such place the value "a" already shows it |
| Shell.SubstitutionsAreRead | packages/runbooks/runbook.go:265-268 | a command substitution, in plain text or in double quotes, is read from the start inside, so a token may stand in it, and its end goes back to where it began |
| Runbook.SegmentsAreTheTemplate | packages/runbooks/runbook.go:192 | tokens and literal characters put back together are the template |
| Runbook.TokenIsSegment | packages/runbooks/runbook.go:192 | every name in braces after a dollar sign is a token, at its place |
| Runbook.SegmentIsToken | packages/runbooks/runbook.go:192 | and nothing else is |
| Runbook.ValidateParameterValue | packages/runbooks/runbook.go:285-329 | accepts a value exactly when its characters fit the type and it is one of the allowed values |
| Runbook.ValidateParams | packages/runbooks/runbook.go:197-228 | succeeds exactly when there is nothing to complain about; then every given value is taken as it is, every other name has its last default that is not empty, there is nothing else, and every token is covered; an error is a true complaint, about the last definition of its name |
| Runbook.Defining | packages/runbooks/runbook.go:200-205 | the last definition and the last non-empty default of a name count |
| Runbook.FirstUnknown | packages/runbooks/runbook.go:206-210 | reports an undefined name exactly when there is one |
| Runbook.Overriding | packages/runbooks/runbook.go:211-216 | given values replace defaults if all are valid |
| Runbook.FirstMissing | packages/runbooks/runbook.go:217-221 | reports a blank required parameter exactly when there is one |
| Runbook.FirstUnbound | packages/runbooks/runbook.go:222-226 | reports a token without a value exactly when there is one |
| Runbook.RenderCommand | packages/runbooks/runbook.go:260-270 | the command is the template with each token replaced by the quoted given value, or else the quoted last default, and inserted text is not looked at again |
| Rebind.Rebind | packages/db/dialect/dialect.go:41-96 | the one-pass scanner computes tokenise-then-render, for every query and driver |
| Rebind.ScanToken | packages/db/dialect/dialect.go:51-93 | one turn of the scan writes one token and moves past it |
| Rebind.TokensAreTheQuery | packages/db/dialect/dialect.go:50-94 | the tokens put back together are the query |
| Rebind.DialectsDifferOnlyAtParameters | packages/db/dialect/dialect.go:70-81 | both outputs are the same pieces in the same order and differ exactly at parameters, which PostgreSQL numbers from 1 in order; everything else is verbatim |
| Rebind.PieceAt | packages/db/dialect/dialect.go:74-77 | a parameter's number is one more than the parameters before it |
| Rebind.EscapesAreQuestionMarks | packages/db/dialect/dialect.go:70-88 | both escapes become one question mark in either dialect |
| Rebind.RenderIsPieces | packages/db/dialect/dialect.go:50-94 | the output is its pieces |
| Rebind.DecimalReadsBack | packages/db/dialect/dialect.go:75 | different parameters get different names |
| Rebind.QuotedExtent | packages/db/dialect/dialect.go:131-145 | a quoted stretch is a body with doubled quotes and one closing quote, or runs to the end |
| Rebind.EndAfterIsFirst | packages/db/dialect/dialect.go:147-165 | bracketed names and line comments end at the first closing character |
| Rebind.BlockEndIsFirst | packages/db/dialect/dialect.go:167-176 | block comments end at the first star-slash |
| Rebind.CopyQuoted | packages/db/dialect/dialect.go:131-145 | copies the stretch verbatim |
| Rebind.CopyThrough | packages/db/dialect/dialect.go:147-165 | copies the stretch verbatim |
| Rebind.CopyBlockComment | packages/db/dialect/dialect.go:167-176 | copies the stretch verbatim |
| Rebind.BlockEndExactly | packages/db/dialect/dialect.go:167-176 | the scanner's end of a block comment is the first star-slash after the opening exactly when the opening is not followed by a slash and more text |
| Rebind.SqliteCutExactly | packages/db/dialect/dialect.go:39-96 | a whole query is cut as SQLite cuts it exactly when none of its tokens but the last is the text of an early-closed comment |
| Rebind.PostgresCutExactly | packages/db/dialect/dialect.go:39-96 | a whole query is cut by PostgreSQL's own rules for subscripts, backticks, escape strings, dollar quotes and nested comments exactly when none of the scanner's tokens starts where the two part |
| Rebind.PostgresTokenExactly | packages/db/dialect/dialect.go:50-93 | one token of that |
| Rebind.NestedEndExactly | packages/db/dialect/dialect.go:167-176 | a comment that nests ends at the first star-slash exactly when no comment opens inside it or the query ends there |
| Rebind.SubscriptHidesParameter | packages/db/dialect/dialect.go:157-165 | in the query a[?] PostgreSQL has a parameter and the scanner has none |
| Rebind.BlockCommentClosesEarly | packages/db/dialect/dialect.go:167-176 | a parameter is found that SQLite has inside a comment |
| Schedule.NextIsLeast | packages/automation/schedule.go:50-62 | the next instant is the least of the schedule's own after now |
| Schedule.NextAfter | packages/automation/schedule.go:50-62 | the loop ends and returns the first of the schedule's instants after now, or now plus the interval when no time is stored |
| Schedule.InvRun | apps/api/automation.go:295-321 | over any run with any number of loops, whatever a loop carries is an instant of its schedule |
| Schedule.ClaimMovesToNext | apps/api/automation.go:307-315 | a claim moves the schedule to the least instant after now, missed ones collapsing into one, exactly when it is timely |
| Schedule.StartsAreBounded | apps/api/automation.go:308-315 | any reachable span of T seconds starts at most ceil(T/interval)+1 runs of a schedule, and one more for each start by a loop that stalled past its instant |
| Schedule.LateStartIsFree | apps/api/automation.go:307-311 | such a start leaves the schedule due again and uses no instant to come |
| Schedule.DisabledNeverStarts | apps/api/automation.go:307-311 | a schedule that has been disabled never starts again, whatever loops still carry |
| Schedule.StartsExactly | apps/api/automation.go:307-315 | the guarded update in columns: it starts exactly an enabled row that is due, and moves it to what the loop worked out |
| Schedule.StalledLoopsStartTwice | apps/api/automation.go:307-315 | two late starts at one moment |
| Schedule.PausedMeansNoStart | apps/api/automation.go:295-306 | no run starts whose pause check sees paused |
| Schedule.TurnRun | apps/api/automation.go:295-315 | one turn, after anything that is not a write to the schedules, is the machine's check, compute and claim, and what it leaves: the row moved to its next instant unless paused or no longer due, and nothing else |
| Schedule.ReadsRun | apps/api/automation.go:275-290 | reading all due rows first is the machine's reads, one loop for each row |
| Schedule.SchedulerStore.TakeTurn | apps/api/automation.go:295-321 | takes the turn's steps; starts the schedule exactly when its organisation is not paused at the check, and then moves its row to the next instant after the check |
| Schedule.SchedulerStore.RunDueSchedulesOnce | apps/api/automation.go:271-321 | a pass over distinct due schedules, with time, pausing and resuming between its statements, is the machine's run of all the reads followed by each turn's steps and keeps the invariant; each schedule has moved exactly as its own turn says, those that ran are started once each in order, and no other row changes |
| Placement.Disk.Restore | apps/api/cmd/backup/main.go:293-329 | for every placement of failures both destinations end new, or both end as they were when the undoing works; nothing that stood there is ever lost; and a failed restore, forced or not, is half done exactly when the named operations fail |
| Placement.SettledMeans | apps/api/cmd/backup/main.go:293-329 | the same, of any outcome the placement can settle in |
| Placement.Disk.Place | apps/api/cmd/backup/main.go:241-329 | refused over existing destinations without force, and otherwise one of the two placements |
| Placement.Disk.PlaceForced | apps/api/cmd/backup/main.go:293-321 | a forced placement keeps the old destinations aside, and which failures leave which destination undone |
| Placement.Disk.MoveBothAside | apps/api/cmd/backup/main.go:294-302 | both old destinations move aside, or the first moves back |
| Placement.Disk.PlaceOrRollBack | apps/api/cmd/backup/main.go:315-320 | the two renames with their rollback |
| Placement.Disk.PlaceFresh | apps/api/cmd/backup/main.go:321-329 | both new or both absent, unless the removal fails too |
| Placement.Disk.RollBack | apps/api/cmd/backup/main.go:303-314 | each destination comes back or is still aside |
| Placement.Disk.RemovePlaced | apps/api/cmd/backup/main.go:305-310 | the removals of the rollback |
| Placement.Disk.MoveAside | apps/api/cmd/backup/main.go:577-583 | an existing destination moves under a fresh name |
| Placement.Disk.RestoreAside | apps/api/cmd/backup/main.go:584-589 | and back |
| Placement.Disk.Rename | apps/api/cmd/backup/main.go:315-326 | a rename moves the node or does nothing; a file replaces a file, anything else in the way refuses |
| Placement.Disk.RemoveAll | apps/api/cmd/backup/main.go:305-310 | a removal, which may fail half way through a tree |
| Placement.Disk.CleanUp | apps/api/cmd/backup/main.go:249-262 | the deferred removals touch the temporary names only |
| Paths.ValidExactly | apps/api/cmd/backup/main.go:558-565 | with backslashes as slashes, a path passes exactly when it is "." or no segment is empty, "." or "..", and it has no drive prefix |
| Paths.CleanMeansPlain | apps/api/cmd/backup/main.go:560-561 | a clean relative path that does not climb has only plain segments |
| Paths.SafeJoin | apps/api/cmd/backup/main.go:558-565 | a joined path is safe exactly when each of its names is |
| Backup.CopyTree | apps/api/cmd/backup/main.go:334-367 | copies and describes exactly the .bin files, and refuses any symbolic link |
| Backup.CreateBackup | apps/api/cmd/backup/main.go:103-175 | the published directory, or none exactly when there is a symbolic link, an unreadable key file, or, with no key configured outside, a key file of another length than 32 or no wrapping key; the key file goes in sealed exactly when no key is configured |
| Backup.ValidateManifest | apps/api/cmd/backup/main.go:480-521 | the counting loop accepts exactly the manifests with the version, names, date, counts, key record, sizes and hashes the code asks for |
| Backup.ContainsManifestPath | apps/api/cmd/backup/main.go:523-530 | finds the path exactly when it is listed |
| Backup.VerifyRecords | apps/api/cmd/backup/main.go:185-201 | the loop with the seen map accepts exactly distinct, safe, matching records |
| Backup.VerifyBackup | apps/api/cmd/backup/main.go:177-234 | accepts exactly when manifest and directory files match one to one and the database is sound |
| Backup.CopyArtifacts | apps/api/cmd/backup/main.go:263-271 | the restore's copy loop |
| Backup.RestoreContents | apps/api/cmd/backup/main.go:236-292 | what is put in place: the verified files and the unsealed key; nothing exactly when the backup is not accepted or its sealed key does not open to 32 bytes |
| BackupTheorems.PublishedAcceptedExactly | apps/api/cmd/backup/main.go:107-170 | a published backup is accepted exactly when its database is sound and every kept path is safe |
| BackupTheorems.BackslashNameIsRejected | apps/api/cmd/backup/main.go:558-565 | a file named `..\x.bin` is backed up into a backup that is never accepted |
| BackupTheorems.KeptMeansBin | apps/api/cmd/backup/main.go:349-351 | the kept files are exactly the regular ones whose name ends in .bin |
| BackupTheorems.FilesDescribe | apps/api/cmd/backup/main.go:124-150 | every manifest record describes the file published at its path |
| BackupTheorems.FilesDistinct | apps/api/cmd/backup/main.go:124-150 | no path is recorded twice |
| BackupTheorems.FilesComplete | apps/api/cmd/backup/main.go:124-165 | nothing is published without a record |
| BackupTheorems.InventoryCounts | apps/api/cmd/backup/main.go:155 | one database record, and the recorded artifact count is right |
| BackupRoundTrip.BackupRoundTrip | apps/api/cmd/backup/main.go:263-289 | an accepted backup restores to the copied database and exactly the original .bin files at their paths, and .key with its 32 bytes exactly when there was a regular key file and no key configured outside |
| BackupRoundTrip.RestoredIsKept | apps/api/cmd/backup/main.go:263-271 | the copied files are exactly the kept ones, both directions |
| BackupRoundTrip.ManifestFixesBackup | apps/api/cmd/backup/main.go:185-231 | unless two versions of one file collide, the manifest fixes the directory: no file can change, vanish or appear |
| BackupRoundTrip.ArtifactCountIsTrue | apps/api/cmd/backup/main.go:205-207 | in an accepted backup the recorded count is the number of files under artifacts/ |
| Artifacts.MigrateLocalToS3 | packages/artifacts/migrate.go:164-218 | success stores every artifact and reports exactly those; any run, however it ends, changes only listed artifacts' objects, to their bytes, and without force nothing that was there; reliable calls succeed whenever every name can be migrated; when all is stored already nothing is copied |
| Artifacts.MigrateOne | packages/artifacts/migrate.go:174-215 | one directory entry of it |
| Artifacts.VerifyS3Manifest | packages/artifacts/migrate.go:57-82 | accepts only manifests that hold, and, if calls are reliable, all of them |
| Artifacts.VerifyEntry | packages/artifacts/migrate.go:70-79 | one listed object has the listed size and hash |
| Artifacts.RestoreS3Manifest | packages/artifacts/migrate.go:88-114 | success leaves the last entry of each local file name in place; other files are untouched; an unverified manifest restores nothing |
| Artifacts.RestoreEntry | packages/artifacts/migrate.go:97-111 | one entry is there already or is written, and no other file is touched |
| Artifacts.S3Store.Get | packages/artifacts/store.go:176-210 | what reading an object may answer |
| Artifacts.S3Store.Put | packages/artifacts/store.go:145-174 | a put may fail before or after it took effect |
| Artifacts.ValidIdExactly | packages/artifacts/store.go:340-355 | an id is valid exactly when it has none of the forbidden characters and no segment is empty, a dot or two dots |
| Artifacts.LocalStore.Put | packages/artifacts/store.go:466-481 | the local write replaces the file named by the id's last segment, or nothing |
| ArtifactsTheorems.MigratedManifestHolds | packages/artifacts/migrate.go:164-218 | the report of a successful migration is a manifest that verifies |
| ArtifactsTheorems.MigrateAndRestore | packages/artifacts/migrate.go:88-218 | a migration followed by a restore into an empty store: if both succeed every artifact is back with its bytes, unless two versions collide, and nothing else is there; with reliable calls they do succeed whenever every name can be migrated |
| ArtifactsTheorems.MigrateThenRestore | packages/artifacts/migrate.go:88-114 | the part of it about one artifact and any local store, empty or not |
| ArtifactsTheorems.RestoredExactlyWhenNamesDiffer | packages/artifacts/store.go:537-539 | after a finished restore every entry is there exactly when no two ids end alike |
| ArtifactsTheorems.PrefixedIdsCollide | packages/artifacts/store.go:537-539 | objects a/x and b/x verify together and cannot be restored together |
| ArtifactsTheorems.InventoryDistinct | packages/artifacts/migrate.go:174-215 | the report names no id twice |
| RateLimit.BoundedRateLimiter.Allow | apps/api/ratelimit.go:44-63 | refused exactly when the key's window is open and has had its limit; the key's new window or count; and of the others at most an oldest goes, when the key is new and the map full |
| RateLimit.BoundedRateLimiter.EvictOldest | apps/api/ratelimit.go:65-76 | removes one entry no other is older than, ranging in any order |
| RateLimit.EntriesAreBounded | apps/api/ratelimit.go:51-54 | at most max(1, maxKeys) windows are ever remembered |
| RateLimit.AtMostTwiceTheLimit | apps/api/ratelimit.go:50-62 | a key that is not evicted gets at most 2·limit calls through in any span no longer than the window |
| RateLimit.RefusalHasCause | apps/api/ratelimit.go:50-63 | over any run, evictions and other keys included: a refused call was preceded, less than a window before, by as many calls of its key that were let through as the limit says |
| RateLimit.SameDecisionsWhileKeysFit | apps/api/ratelimit.go:44-63 | with no more distinct keys than maxKeys the decisions are those of a limiter that forgets nothing |

## Left out

- Databases: each transaction is one atomic step, as with SQLite's single writer; under PostgreSQL's read-committed isolation two last results of one execution could each see the other as open, and that is not modelled. Row-level security, pools and migrations are not modelled.
- Time: one integer clock in seconds; timestamp texts, their truncation and the difference between process and database clocks are not modelled.
- Random names: lease ids come from a counter, other new ids are arguments that a clash refuses; the chance of two equal random ids is not modelled.
- Hashes and JSON: a payload hash is modelled by the payload; where a hash is a parameter, a result that needs it free of collisions says of what. JSON gives texts back unchanged, so file names that are not valid UTF-8 are not modelled.
- Queue handlers: the event timeline, audit writes, signing of jobs, notifications, uploading of long outputs, credentials and HTTP decoding. A claim whose signing fails keeps its lease without a job reply.
- Reconcile throttle: a transactional reconcile is an optional step of its own before a claim.
- Runners and scopes: rows change by arbitrary steps, so a scope may be withdrawn at any time.
- QueueStore.JobStore.CancelExecution: nothing happens between its two updates; in the state machine other steps run between them.
- Control: what a handler reads before it writes (role, target, environment and policy checks, rendering) is an arbitrary plan; the policy tables, dry runs and reason rules are not modelled. Risk labels are compared as spelled.
- Schedule: unreadable stored times appear only in Next; limits on how many schedules a cycle reads and errors of a started run are not modelled.
- Schedule.SchedulerStore.RunDueSchedulesOnce: starts with the schedules that the cycle's first look at the pause switch has left; no other loop, and nobody who creates or disables schedules, writes between its statements. In the state machine they all do.
- Rebind.SqliteCutExactly: named parameters with parentheses, and a query that ends right after the two characters that open a comment, are not modelled.
- Rebind.PostgresCutExactly: strings conform to the standard unless marked as escape strings; a string continued on a later line is two strings here. Texts a database refuses anyway are cut all the same.
- Shell.RenderedCommandReads: the lexer makes no claim about what follows a backquote, a parameter or arithmetic expansion or a here-document, and knows no aliases; inside a substitution a `case` pattern needs its opening parenthesis.
- Runbook.ValidateParameterValue: states the number grammar as the code has it, which also takes "." and "-."; parameter types are compared as if already lower case.
- ParseParameterValues, Validate and the YAML form of runbooks: single-pass validators that would add easy members only.
- RateLimit.BoundedRateLimiter.EvictOldest: the empty key, which the code uses to mark that it has met none, is excluded.
- Placement.Disk.Restore: destinations, temporary and aside names are distinct and not inside one another, and the aside names are fresh; the copying before the renames is in Backup.
- Backup.CreateBackup: the artifact directory is a directory, its files do not change meanwhile, and special files are not modelled; VACUUM INTO, encryption and the database checks are parameters. The order of the manifest's records is not modelled.
- Artifacts.RestoreS3Manifest: content types are not preserved by the local store, so they are not part of what is restored; objects and files that other clients change meanwhile are not modelled, nor are S3's requests, retries and encryption.
- HTTP routing, the command line, terminal and web interfaces, the AI provider, SSH execution, keystores and output redaction.
