# A verified model of the agent service's protocols

This Dafny project models five parts of the agent service and proves what they keep over every run or every input.
`dafny verify dfyconfig.toml` checks all of it. Cited paths are relative to the repository root.

**Mailbox delivery** (`MailboxTable`, `MailboxProtocol`, `MailboxInspection`, `MailboxProgress`, `MailboxStore`). A durable
per-session queue with leases, claim tokens, an admission mark, guarded edits, owner cancel and owner retry. `MailboxTable`
holds the effect of every SQL statement on its row, `MailboxProtocol` interleaves any number of dispatchers that crash or
lose replies between any two statements, `MailboxInspection` says what the inspected boundary lets through in every run,
`MailboxProgress` what each undisturbed stretch of calls achieves, and `MailboxStore` is the store as an object whose methods
update the rows in place by exactly those statements.

**Sandbox compute** (`SandboxGate`, `SandboxLifecycle`, `SandboxEffects`, `SandboxHandoff`, `SandboxBackends`). The FIFO
counting gate, the idle-shutdown layer in front of it, what every event does and leaves alone, what becomes of a create that
waits for a stop, and both layers as objects that keep the invariant. The steps are the code between awaits.

**AgentRuns** (`RunProjection`, `RunFold`, `RunTable`, `RunLifecycle`, `RunOutcome`, `RunProgress`, `RunStore`). The event
fold and what it computes, the rows, the interleaving of submitters, synchronizers and cancellers that hold stale copies, the
status a row ends in, and the store and its programs as an object and methods.

**Patch engine** (`PatchParser`, `PatchGrammar`, `PatchHunks`, `PatchText`, `PatchEngine`). Parsing, the lines it accepts,
exact-context hunks, the text form of an update, and the staged multi-file commit, whose specification is sequential
application to a map of files.

**Archives and transforms** (`ArchiveValue`, `ArchiveValidator`, `ArchiveFile`, `ArchiveText`, `ArchiveWriter`,
`ArchiveRoundTrip`, `ArchiveOnDisk`, `ArchiveFormats`, `TranscriptRepair`, `AssetParts`, `Retention`). `Common`, `Text`,
`Sorting` and `Counting` are shared helpers.

## Exact conditions and counterexamples

- Per-session order rests on an assumption the schema does not guarantee. `created_at` defaults to `now()`, the start of
  the inserting transaction, so a slow enqueue can insert an item in front of one that was already claimed.
  `FifoExactly` gives the exact condition and `LateInsertBreaksFifo` a run.
- The admission gate alone does not bound live compute, because references are counted after the await
  (`GateAloneOversubscribes`); `LiveRegisteredExactly` says in which runs it does. Behind the idle layer it always does
  (`BoundedCompute`).
- Keeping input and authorization requests apart, and nothing after a cancelled turn, is not enough for page boundaries to
  be invisible to the status of a run. `StreamPageableExactly` gives the exact condition for one cut and `AnyPagesExactly` for
  any number of pages, `CompletionHidesOutstandingInput` a stream.
- At the text level a patch is invertible only for line arrays that text can carry (`TextInvertibleExactly`).
- A context line that reads `*** End Patch` when trimmed ends the patch (`RenderedPatchReads`).
- A deleted file is counted by the lines the whole patch found there, even if an earlier operation of the same patch
  changed it. `ChangesAgreeExactly` says when the report is nevertheless that of sequential application,
  `UpdatedThenDeleted` gives a patch; files and conflicts always agree (`FilesAgree`).
- Joined primary keys of events and stream chunks collide for different rows exactly if one first column, followed by NUL,
  starts the other (`RowsCollideExactly`, `EventsCollide`).
- An archive that was just written need not verify: a run row with a column value such as `{"$binary": "YR=="}` or
  `{"$date": "2024-01-01T00:00"}` is hashed as written but re-encoded differently on reading, and one like
  `{"$binary": "!"}` cannot be decoded at all (`LooseRunIsRefused`). `WrittenArchiveExactly` and `CanonicalArchivesVerify`
  give the exact conditions. A value in the form that encoding writes passes, but is read as bytes or as a date
  (`SurvivesExactly`). A reader that also ends lines at characters JSON leaves as they are, such as U+2028, refuses files
  whose rows hold one (`WrittenFileExactly`).
- Something of an edited turn can survive its edit (`RestartedTurnSurvives`); `EditedTurnsVanishExactly` gives the exact
  condition.
- A retention age that reaches back beyond the range of dates yields an invalid cutoff, and an invalid completion date makes
  its whole tree incomparable; either way nothing is too recent (`AgeRespectedExactly`, `InvalidDateSelected`).

## Conventions and assumptions

- Each SQL statement or transaction is one atomic step. Item and run ids are positions in their tables; a mailbox row also
  has its own id for the (created, id) order. Clocks are arbitrary and may even go back.
- A "busy" or "rejected" reply of the runtime means that nothing was admitted.
- JavaScript code between awaits runs to completion, and waiters of a settled promise resume in registration order before
  any other event. A backend `create` that fails leaves no compute behind.
- base64 (section 4 of RFC 4648), ISO timestamps, JSON text and SHA-256 are functions in a record; each theorem names the
  laws it needs (inverse functions, plain JSON values, a hexadecimal digest). JSON text has to read back only values that
  exist at run time: numbers that are finite doubles, records that list index keys first; the text of such a value holds no
  line feed or carriage return, and the text of a record starts with a brace and does not end early. `LawsCanBeMet` shows
  formats that meet all laws. String comparison by locale is an abstract
  total preorder, antisymmetric where stated.
- Costs of a run are real numbers. Errors are values of a datatype; their message text is not modelled.
- Inner steps of the interleaving proofs (lemmas named `...Keeps`, `...Links`, `...Moves`, `...Follows`) and the
  exact effect of the remaining single steps in `MailboxProgress` and `RunProgress` have no row below.

## Model

| member | source | states |
|---|---|---|
| `MailboxTable.FindClientMessage` | server/data/agent-mailbox-store.ts:127-160 | finds the row with the given tenant, principal and client message id, if and only if there is one |
| `MailboxTable.StaleTokenSelectsNothing` | server/data/agent-mailbox-store.ts:463-493 | no claimed statement (begin admission, defer, accept, fail, mark ambiguous) selects a row whose current claim carries another token |
| `MailboxProtocol.StepKeeps` | server/agent-mailbox/service.ts:102-198 | every single step of any dispatcher, runtime, owner, edit gate or commit hook keeps the protocol invariant |
| `MailboxProtocol.Reachable` | server/agent-mailbox/service.ts:102-198 | the invariant holds in every state of every run, with crashes and lost replies anywhere |
| `MailboxProtocol.AdmittedAtMostOnce` | server/agent-mailbox/service.ts:148-196 | in every run the runtime admits each item at most once, whatever expires, is retried or lost |
| `MailboxProtocol.EditOutcomesExclusive` | server/data/agent-mailbox-store.ts:288-318 | an expired edit was never consumed; a consumed edit is never cancelled and a guarded one is committed; of an item the owner cancelled no request was or can be admitted |
| `MailboxProtocol.RowsFollow` | server/data/agent-mailbox-store.ts:210-493 | no step deletes a row, changes its identity, reopens a committed or cancelled one, or lowers its attempt count |
| `MailboxProtocol.LogsGrow` | server/data/agent-mailbox-store.ts:210-493 | over any stretch of a run, what was admitted, consumed, committed, expired or cancelled stays so, in the same order |
| `MailboxProtocol.StaleStaysStale` | server/data/agent-mailbox-store.ts:225-287 | once a token lost its row it never selects it again, under every later step |
| `MailboxProtocol.CommitsAreCommitted` | server/data/agent-mailbox-store.ts:364-382 | the commit log names each committed item exactly once, and only committed items |
| `MailboxProtocol.FifoExactly` | server/data/agent-mailbox-store.ts:235-267 | in every state of a run all items older than any claimed item are settled, if and only if no enqueue of the run inserts an item in front of one already claimed in its session |
| `MailboxProtocol.CommitsFollowEnqueueOrder` | server/data/agent-mailbox-store.ts:364-382 | under that condition each session commits in row order and has at most one claimed item that is not settled |
| `MailboxProtocol.LateInsertBreaksFifo` | server/data/migrations/0001_agent_service.sql:62-83 | a concrete run in which the condition fails: `created_at` is the start of the inserting transaction, so a slow enqueue can land in front of a claimed item |
| `MailboxProtocol.MailboxBounded` | server/data/agent-mailbox-store.ts:160-190 | in every run a session has at most five pending items, and each owner stores a client message id at most once |
| `MailboxProtocol.PendingBounded` | server/data/agent-mailbox-store.ts:176-190 | in every run the rows of a session that are neither committed nor cancelled are at most five |
| `MailboxInspection.InspectionMeaning` | server/agent-mailbox/service.ts:112-142 | the dispatcher goes on exactly at a waiting boundary, or at a running one whose turn the steer expects; it fails the item at a terminal one and defers it otherwise |
| `MailboxInspection.RequestsMatchBoundary` | server/agent-mailbox/service.ts:112-155 | in every run a delivery request leaves a dispatcher only if the boundary it inspected was waiting, or running with exactly the turn the item steers |
| `MailboxInspection.GuardsMatchBoundary` | server/agent-mailbox/service.ts:144-148 | in every run only an edit is guarded, and only after a dispatcher of it inspected a waiting boundary that guards edits |
| `MailboxProgress.DeliveryCompletes` | server/agent-mailbox/service.ts:102-166 | in every state an item that can be claimed and that its boundary lets through can be delivered, admitted once and committed |
| `MailboxProgress.HeldBack` | server/agent-mailbox/service.ts:112-142 | what the boundary holds back is queued again, or failed if the session is over, and never admitted |
| `MailboxProgress.FailureSettles` | server/agent-mailbox/service.ts:167-197 | a caught failure requeues, fails or marks ambiguous the row that is still claimed |
| `MailboxProgress.LossIsCaught` | server/agent-mailbox/service.ts:144-167 | a lost store call or reply is handled as a failure of unknown outcome |
| `MailboxProgress.OwnerActs` | server/data/agent-mailbox-store.ts:405-437 | the owner cancels what is queued, failed or claimed without admission, and requeues what failed; everything else stays |
| `MailboxProgress.EditIsConsumed` | server/data/agent-mailbox-store.ts:288-318 | an admitted guarded edit is consumed, and committed by that, exactly while its row is not settled otherwise |
| `MailboxStore.Store.Enqueue` | server/data/agent-mailbox-store.ts:127-209 | any outcome but created leaves the rows; created appends one queued, unclaimed, unguarded row without attempts whose client message id was new; a replay or conflict names a row of that owner and id, which has the same fingerprint and session exactly for a replay; full means five or more pending |
| `MailboxStore.Store.ClaimNext` | server/data/agent-mailbox-store.ts:210-271 | column by column: cancels guarded edits admitted over two minutes ago and marks lapsed admissions ambiguous, then claims the first unlocked row in (available, created, id) order that is due and has no older unsettled row of its session, or none |
| `MailboxStore.Store.BeginAdmission` | server/data/agent-mailbox-store.ts:272-287 | sets the admission mark once, under a live claim, and marks an edit guarded if asked to; every other column and row is untouched |
| `MailboxStore.Store.Defer` | server/data/agent-mailbox-store.ts:319-334 | requeues a claimed row that was not yet admitted |
| `MailboxStore.Store.DeferRejectedAdmission` | server/data/agent-mailbox-store.ts:335-349 | requeues a claimed row whose admission was refused, clearing the mark |
| `MailboxStore.Store.Accept` | server/data/agent-mailbox-store.ts:350-363 | accepts under the claim, or recognises the row the commit hook already committed in that session |
| `MailboxStore.Store.Commit` | server/data/agent-mailbox-store.ts:364-382 | succeeds exactly on a delivering, accepted, ambiguous or committed row that is bound to no other session; it is then committed to this session without a claim, and every other row is untouched |
| `MailboxStore.Store.Fail` | server/data/agent-mailbox-store.ts:383-388 | fails the row under its claim |
| `MailboxStore.Store.MarkSubmissionAmbiguous` | server/data/agent-mailbox-store.ts:389-394 | marks the row ambiguous under its claim and drops the claim |
| `MailboxStore.Store.ConsumeEdit` | server/data/agent-mailbox-store.ts:288-318 | allows exactly the edit of this owner, session, message and turn that is unguarded or not yet expired or cancelled, and commits the row of a guarded one |
| `MailboxStore.Store.AdmitDelivery` | agent/lib/mailbox-edit-admission.ts:16-38 | a reverting delivery passes only if its edit was consumed first; other deliveries pass unchanged |
| `MailboxStore.Store.CancelOwned` | server/data/agent-mailbox-store.ts:405-421 | cancels an own row exactly while it is queued, failed, or claimed without an admission mark |
| `MailboxStore.Store.RetryOwned` | server/data/agent-mailbox-store.ts:422-437 | requeues exactly an own failed row |
| `MailboxStore.SettleFailure` | server/agent-mailbox/service.ts:167-196 | a row committed or cancelled meanwhile is reported as it is; a claimed one is requeued when busy, failed when rejected, else ambiguous; a row lost to another claim is left alone and the error thrown |
| `MailboxStore.DispatchNext` | server/agent-mailbox/service.ts:102-198 | one undisturbed pass over the first eligible row: the runtime sees a delivery exactly within the lease and at a waiting boundary, or a running one whose turn is steered; terminal fails the row, any other boundary requeues it; an edit is marked guarded exactly at a guarding waiting boundary; the reply decides the rest |
| `SandboxGate.Without` | lib/sandbox-admission-backend.ts:127-128 | removing a waiter keeps all others in order |
| `SandboxGate.GateAccounting` | lib/sandbox-admission-backend.ts:76-155 | in every run permits in use are the registered sessions holding one, at most the limit; a non-empty queue means all permits are in use; the queue is bounded; no later session is granted before an earlier one that still waits |
| `SandboxGate.ReleasedWhileSuspended` | lib/sandbox-admission-backend.ts:82-111 | the state of a concrete run in which a handle is released between the admission and the reference of a second create |
| `SandboxGate.GateAloneOversubscribes` | lib/sandbox-admission-backend.ts:93-102 | continuing that run, sessions of two different keys are live at limit one |
| `SandboxGate.StepStaysRegistered` | lib/sandbox-admission-backend.ts:82-155 | a step keeps all live sessions registered if and only if it does not resume a granted session that is no longer registered |
| `SandboxGate.LiveRegisteredExactly` | lib/sandbox-admission-backend.ts:82-155 | in every state of a run all live sessions are registered, if and only if no step of the run is such a resumption |
| `SandboxGate.BoundedWithoutStrays` | lib/sandbox-admission-backend.ts:82-155 | without such a step the live sessions never exceed the limit |
| `SandboxLifecycle.StepKeeps` | lib/idle-sandbox-backend.ts:61-149 | every create, timer, capture, shutdown, settlement or timeout of the composed layers keeps the composed invariant |
| `SandboxLifecycle.Reachable` | lib/idle-sandbox-backend.ts:61-149 | the composed invariant holds in every run |
| `SandboxLifecycle.UnstoppedUnique` | lib/idle-sandbox-backend.ts:61-103 | two unstopped computes of one key are the same compute |
| `SandboxLifecycle.LimitFixed` | agent/sandbox.ts:100-117 | no run changes the limit or the queue bound |
| `SandboxLifecycle.InvariantBounds` | agent/sandbox.ts:100-117 | the composed invariant bounds the unstopped computes: one for each key, at most the limit in total |
| `SandboxLifecycle.BoundedCompute` | agent/sandbox.ts:100-117 | in every run each key has at most one compute starting or live, and all together never exceed the limit |
| `SandboxHandoff.WaitingCreatesLast` | lib/idle-sandbox-backend.ts:61-80 | in every run a create that finds its entry stopping waits for it until exactly that stop settles, whatever happens to other keys |
| `SandboxHandoff.WaitingCreatesServed` | lib/idle-sandbox-backend.ts:61-102 | in every run, once that stop settles, the key has a creation or was turned away by a full queue, or after a failed stop still has its entry |
| `SandboxBackends.AdmissionGate.Acquire` | lib/sandbox-admission-backend.ts:114-137 | grants at once only with a free permit and an empty queue, else queues, else fails at the bound |
| `SandboxBackends.AdmissionGate.Create` | lib/sandbox-admission-backend.ts:82-94 | keeps the gate invariant; a registered key keeps its session, any other gets one fresh session, granted exactly with a free permit and an empty queue, queued last exactly with room, else refused |
| `SandboxBackends.AdmissionGate.Resume` | lib/sandbox-admission-backend.ts:93-103 | keeps the gate invariant; a granted caller adds one reference and nothing else, a refused one at most unregisters its own session |
| `SandboxBackends.AdmissionGate.Release` | lib/sandbox-admission-backend.ts:139-155 | keeps the gate invariant; only the last reference unregisters, and then the permit goes to the first waiter or, if nobody waits, is freed |
| `SandboxBackends.AdmissionGate.TimeOut` | lib/sandbox-admission-backend.ts:126-131 | keeps the gate invariant; refuses a queued session and removes just it from the queue; permits and registrations stay |
| `SandboxBackends.IdleBackend.Create` | lib/idle-sandbox-backend.ts:61-102 | keeps the composed invariant and the bound on computes; a key with an entry gets no new compute and waits exactly if the entry is stopping, one with a creation joins it, any other starts a compute exactly with a free permit; other keys and the creates waiting for them are untouched |
| `SandboxBackends.IdleBackend.Created` | lib/idle-sandbox-backend.ts:85-99 | keeps invariant and bound; exactly the compute of the creation becomes live and the entry of its key |
| `SandboxBackends.IdleBackend.CreateFailed` | lib/sandbox-admission-backend.ts:104-110 | keeps invariant and bound; the key is given up with its compute and permit, and only the first waiter goes on, with a compute of its own |
| `SandboxBackends.IdleBackend.CaptureState` | lib/idle-sandbox-backend.ts:138-149 | keeps invariant and bound; arms the timer of a current entry that is not stopping and changes nothing else |
| `SandboxBackends.IdleBackend.Stop` | lib/idle-sandbox-backend.ts:109-129 | keeps invariant and bound; an entry that is not stopping starts to, a second call changes nothing, and the compute stays live until the shutdown settles |
| `SandboxBackends.IdleBackend.IdleTimerFires` | lib/idle-sandbox-backend.ts:142-147 | keeps invariant and bound; stops the entry exactly if its timer is armed and it is current |
| `SandboxBackends.IdleBackend.ShutDown` | lib/idle-sandbox-backend.ts:118-123 | keeps invariant and bound; compute, entry and permit are given up, only the first waiter goes on, and a waiting create of the key starts over or is turned away by a full queue |
| `SandboxBackends.IdleBackend.ShutdownFailed` | lib/idle-sandbox-backend.ts:124-127 | keeps invariant and bound; the compute stays live and registered, and its entry can be stopped again |
| `SandboxBackends.IdleBackend.AdmissionTimeout` | lib/sandbox-admission-backend.ts:126-131 | keeps invariant and bound; the key of the queued session is given up and nothing of another key changes |
| `SandboxEffects.Creates` | lib/idle-sandbox-backend.ts:61-102 | what a create does for its key and for whom it waits, and that it touches no other key or waiting create |
| `SandboxEffects.Releases` | lib/sandbox-admission-backend.ts:139-155 | releasing the one reference of a key unregisters it and lets just the first waiter go on |
| `SandboxEffects.Fails` | lib/sandbox-admission-backend.ts:104-110 | what a failed creation does, and that it touches only its key and the first waiter's |
| `SandboxEffects.ShutsDown` | lib/idle-sandbox-backend.ts:118-123 | what a successful shutdown does, and that it touches only its key and the first waiter's |
| `SandboxEffects.StopFails` | lib/idle-sandbox-backend.ts:124-127 | after a failed stop the entry is current and its compute live and registered |
| `SandboxEffects.TimesOut` | lib/sandbox-admission-backend.ts:126-131 | what a timed-out admission does, and that it starts and stops no compute |
| `RunProjection.ProjectFrom` | server/agent-runs/projection.ts:36-119 | the loop computes the fold of the page |
| `RunProjection.PagesAgreeOnCore` | server/agent-runs/projection.ts:36-119 | usage, event count, result and failure never depend on where a stream is cut into pages |
| `RunProjection.PagesAgreeOnStatus` | server/agent-runs/projection.ts:40-45 | a page boundary is invisible to all later statuses if and only if the hidden flags can be rebuilt from the stored status |
| `RunProjection.KeepsFlagsExactly` | server/agent-runs/projection.ts:46-113 | exactly which events keep the flags rebuildable |
| `RunProjection.StreamPageableExactly` | server/agent-runs/projection.ts:36-119 | a stream can be cut anywhere if and only if none of four named event patterns occurs in it |
| `RunProjection.AnyPagesExactly` | server/agent-runs/projection.ts:36-119 | folding any number of pages equals folding them at once, in every stored column, if and only if the stream has none of these patterns |
| `RunProjection.CompletionHidesOutstandingInput` | server/agent-runs/projection.ts:40-45 | never having input and authorization outstanding together is not enough: a concrete stream whose status depends on the cut |
| `RunFold.UsageIsSum` | server/agent-runs/projection.ts:73-82 | each usage column is its start plus the sum of what the completed steps report for it |
| `RunFold.FlagsMeaning` | server/agent-runs/projection.ts:49-66 | input is outstanding from its last request until a turn starts or a message arrives, authorization also until it is completed, and a cancelled turn counts for good |
| `RunFold.FailureMeaning` | server/agent-runs/projection.ts:87-95 | the failure is that of the last failing event |
| `RunFold.ResultMeaning` | server/agent-runs/projection.ts:67-69 | the result is that of the last result event |
| `RunFold.AnswerMeaning` | server/agent-runs/projection.ts:70-74 | without a result event, an earlier result stays, else the first final answer in words counts |
| `RunFold.WaitingSessionMeaning` | server/agent-runs/projection.ts:99-105 | what a run shows once its session waits, said of its events alone: cancelled, else failed, else what is outstanding, else completed |
| `RunTable.FindKey` | server/data/agent-run-store.ts:120-150 | finds the row of a (tenant, principal, key), if and only if there is one |
| `RunTable.ReplayTakesNoSlot` | server/data/agent-run-store.ts:120-229 | replays and conflicts change nothing, even at capacity |
| `RunTable.ActiveShrinks` | server/data/agent-run-store.ts:160-200 | rows that do not become active again cannot raise an active count |
| `RunTable.ActiveCountMeaning` | server/data/agent-run-store.ts:160-200 | the counted runs are those submitting, running or waiting, of all tenants or of one |
| `RunLifecycle.StepKeeps` | server/agent-runs/service.ts:118-469 | every statement, runtime call, stale copy, lost reply or crash keeps the run invariant |
| `RunLifecycle.Reachable` | server/agent-runs/service.ts:118-469 | the invariant holds in every run |
| `RunLifecycle.RowsFollow` | server/data/agent-run-store.ts:230-423 | no step deletes a row or moves its status, revision or event count backwards |
| `RunLifecycle.RowsFollowRuns` | server/data/agent-run-store.ts:230-423 | the same between any two states of a run |
| `RunLifecycle.CancellationFinal` | server/data/agent-run-store.ts:297-334 | a stored cancellation request excludes completed and failed for good; completed, failed and cancelled are absorbing; a cancelled run has no result or failure, under every interleaving of stale callers |
| `RunLifecycle.NoOrphanedSession` | server/agent-runs/service.ts:164-291 | a session the runtime returned was reset, or its row is still submitting and counted, or its row is bound to it and not given up as ambiguous, for every pattern of crashes and lost or failed calls |
| `RunLifecycle.EventsCountedOnce` | server/agent-runs/service.ts:652-691 | every row accounts for exactly a prefix of its event stream, however many synchronizers fold overlapping pages |
| `RunOutcome.StatusFollowsStream` | server/agent-runs/service.ts:652-691 | in every run, on streams that can be cut into pages, a bound run nobody asked to cancel shows the status, result and failure of folding its counted events at once while in flight, and once settled a status this fold had; for every interleaving of stale pages |
| `RunProgress.RunShowsItsEvents` | server/agent-runs/service.ts:118-240 | in every state a new key within capacity can become an attached run that shows, after one synchronization, what its events fold to |
| `RunProgress.CancellationCompletes` | server/agent-runs/service.ts:405-469 | in every state a bound run in flight can be cancelled: the request is stored, the session reset, the row ends cancelled |
| `RunLifecycle.CapacityAndIdempotency` | server/data/agent-run-store.ts:120-229 | in every run active runs stay within each positive cap, in total and per tenant, and each (tenant, principal, key) has one row at most |
| `RunLifecycle.RunsWithinCaps` | server/data/agent-run-store.ts:120-229 | the same, counting the runs submitting, running or waiting themselves |
| `RunStore.Store.Reserve` | server/data/agent-run-store.ts:120-229 | looks up the key first, then checks capacity, then appends one row |
| `RunStore.Store.AttachSession` | server/data/agent-run-store.ts:230-255 | attaches a submitting row, or recognises an attach whose response was lost |
| `RunStore.Store.BindSubmissionSession` | server/data/agent-run-store.ts:256-278 | records the session on a submitting row that has none or the same one; succeeds exactly if the row then holds it as submitting or running |
| `RunStore.Store.MarkSubmissionAmbiguous` | server/data/agent-run-store.ts:348-365 | a submitting row becomes ambiguous with the ambiguous failure and the next revision, its other columns stay; any other row is left alone |
| `RunStore.Store.MarkCancelled` | server/data/agent-run-store.ts:316-334 | the row ends cancelled, and a row that was not cancelled before loses result and failure |
| `RunStore.Store.UpdateProjection` | server/data/agent-run-store.ts:379-423 | ignores stale pages; otherwise stores count and usage, and the status of the page unless the row is settled or a cancellation is pending, which only a cancelling page ends; a pending or effected cancellation stores neither result nor failure |
| `RunStore.AttachSessionWithRetry` | server/agent-runs/service.ts:256-272 | reports an attach only if it took effect, for every pattern of lost and failed calls |
| `RunStore.ResetAcceptedSessionWithRetry` | server/agent-runs/service.ts:274-291 | reports a reset only if the runtime executed one |
| `RunStore.SettleAcceptedSession` | server/agent-runs/service.ts:164-255 | without another writer the run ends on exactly the returned session, or the session was reset, or the row is still submitting; it is marked ambiguous only after a reset |
| `RunStore.SynchronizeAgentRun` | server/agent-runs/service.ts:652-691 | folds one page from a possibly stale record into the row as UpdateProjection states it, then forces the row to cancelled if a requested cancellation outlived its grace period and the reset was confirmed |
| `PatchParser.ParseHunkLines` | agent/tools/apply_patch.ts:197-225 | the loop over hunk lines computes the specified hunks or the first error |
| `PatchParser.ReadOperation` | agent/tools/apply_patch.ts:144-191 | one directive with its body, as specified |
| `PatchParser.ReadOperations` | agent/tools/apply_patch.ts:144-193 | the index loop computes the specified operations or the first error |
| `PatchParser.ParsePatchText` | agent/tools/apply_patch.ts:136-195 | envelope checks and parsing, as specified |
| `PatchGrammar.PathExactly` | agent/tools/apply_patch.ts:151-176 | a directive names a path exactly if it is the mark, white space, the path on one line and white space; of white space alone the path is the last character that is no line separator |
| `PatchGrammar.HeaderExactly` | agent/tools/apply_patch.ts:227-239 | which lines are hunk headers and which starts they give: the mark alone when trimmed, or the ranges in their order with unused counts, the second mark, and text behind a space |
| `PatchGrammar.HunksExactly` | agent/tools/apply_patch.ts:197-225 | the lines of an update make hunks if and only if each is a hunk line or a readable header and the last is a hunk line; no lines and a header at the end are the two other errors, exactly |
| `PatchGrammar.FirstFailure` | agent/tools/apply_patch.ts:214-222 | of several unreadable lines the first is reported, a bad header as such |
| `PatchGrammar.FirstHunk` | agent/tools/apply_patch.ts:197-225 | hunk lines without a header are one hunk without starts |
| `PatchGrammar.NextHunk` | agent/tools/apply_patch.ts:214-223 | a header and hunk lines behind other hunks are one more hunk, with the starts of that header |
| `PatchGrammar.LastHeaderCounts` | agent/tools/apply_patch.ts:214-219 | of several headers in a row only the last counts |
| `PatchGrammar.BlankLinesSkipped` | agent/tools/apply_patch.ts:144-148 | blank lines between operations say nothing |
| `PatchParser.HeaderReads` | agent/tools/apply_patch.ts:227-239 | a written hunk header is read back with both starts |
| `PatchParser.HunksRead` | agent/tools/apply_patch.ts:197-225 | written hunks are read back, and finish the hunk before them |
| `PatchParser.OpReads` | agent/tools/apply_patch.ts:144-191 | a written operation is read back, and takes exactly its own lines |
| `PatchParser.RenderedPatchReads` | agent/tools/apply_patch.ts:136-195 | operations written as a patch are read back exactly if and only if no context line reads like the end of the patch when trimmed; otherwise the patch is refused as having text outside its envelope |
| `PatchHunks.MatchesBelow` | agent/tools/apply_patch.ts:275-279 | the positions where the context matches, each once |
| `PatchHunks.LocateMeaning` | agent/tools/apply_patch.ts:270-284 | a context is located at the hinted match, else at its only match; no match and several matches are the two errors, exactly |
| `PatchHunks.PlaceMeaning` | agent/tools/apply_patch.ts:252-256 | where a hunk goes, from its header and the file: the old start, else the new start, names the line; a hunk without old lines goes there or to the end, any other where its old lines stand |
| `PatchHunks.HunkByLine` | agent/tools/apply_patch.ts:250-260 | line by line: the old side stood at the reported position and the new side stands there now, lines in front keep their numbers, lines behind move by the difference, and the counts are those of added and deleted lines |
| `PatchHunks.SidesOfHunk` | agent/tools/apply_patch.ts:251-252 | context and deleted lines stand in the file before, context and added lines after, in their order |
| `PatchHunks.HunksKeepTheRest` | agent/tools/apply_patch.ts:250-260 | after any hunk list the lines are lines of the old file in their old order woven with added lines, and no more old lines are gone than deletions are reported |
| `PatchHunks.ApplyToLines` | agent/tools/apply_patch.ts:243-260 | the splice loop computes the specified lines, counts and positions, and leaves the old lines in order, woven with added ones |
| `PatchHunks.LineCounts` | agent/tools/apply_patch.ts:243-268 | line count after = before + added - deleted |
| `PatchHunks.FlipUndoes` | agent/tools/apply_patch.ts:250-260 | one flipped hunk, hinted where the original matched, undoes it |
| `PatchHunks.ApplyAppend` | agent/tools/apply_patch.ts:250-260 | applying two hunk lists in turn is applying their concatenation |
| `PatchHunks.HunksInvertible` | agent/tools/apply_patch.ts:243-284 | the flipped hunks in reverse order restore the line array and swap the counts |
| `PatchText.Normalize` | agent/tools/apply_patch.ts:244 | no carriage return remains, and text without one is unchanged |
| `PatchText.NormalizeMeaning` | agent/tools/apply_patch.ts:244 | each carriage return, with a line feed behind it if there is one, becomes one line feed, and all other text stays |
| `PatchText.SplitMeaning` | agent/tools/apply_patch.ts:247-289 | splitting a text gives the stretches between two separators, or a separator and an end, and nothing else |
| `PatchText.JoinSplit` | agent/tools/apply_patch.ts:247-264 | joining the lines of a text gives the text |
| `PatchText.SplitJoin` | agent/tools/apply_patch.ts:247-264 | splitting joined lines gives the lines |
| `PatchText.LoadMeaning` | agent/tools/apply_patch.ts:244-247 | what the line array of a text is, and how the text is recovered from it |
| `PatchText.LoadSaved` | agent/tools/apply_patch.ts:262-267 | which line arrays survive being saved and read again |
| `PatchText.ApplyUpdateText` | agent/tools/apply_patch.ts:243-268 | the update of a text, as specified |
| `PatchText.TextInvertibleExactly` | agent/tools/apply_patch.ts:243-268 | the inverse hunks restore the normalized text if and only if neither line array is one that text cannot carry |
| `PatchText.CountIsLoaded` | agent/tools/apply_patch.ts:326-330 | counting a text is counting its line array, except that a lone newline counts as one line |
| `PatchText.CountSaved` | agent/tools/apply_patch.ts:262-267 | the counted lines of a saved line array, exactly |
| `PatchText.CountsBalanceExactly` | agent/tools/apply_patch.ts:243-268 | counted lines after + deleted = counted lines before + added, if and only if the text was no lone newline and no empty last line is lost |
| `PatchParser.AddedLinesCounted` | agent/tools/apply_patch.ts:151-163 | an added file counts one line for each of its addition lines |
| `PatchEngine.PathsAreNormal` | agent/tools/apply_patch.ts:286-293 | an accepted path is its own normal form and is reached by exactly one relative and one absolute spelling |
| `PatchEngine.PathsExactly` | agent/tools/apply_patch.ts:286-292 | a path is accepted if and only if it is relative or starts at the workspace, holds no backslash and no NUL and has no segment that is empty, one dot or two; it then names that place below the workspace |
| `PatchEngine.OnlyNamedFilesChange` | agent/tools/apply_patch.ts:57-96 | a patch changes only files it names, all inside the workspace |
| `PatchEngine.FilesAgree` | agent/tools/apply_patch.ts:57-96 | conflicts and files are always those of sequential application, also where the counts of a deletion differ |
| `PatchEngine.ChangesAgreeExactly` | agent/tools/apply_patch.ts:67-72 | the reported changes are those of sequential application if and only if every deletion finds as many lines at its path as the whole patch found there |
| `PatchEngine.UpdatedThenDeleted` | agent/tools/apply_patch.ts:67-72 | a concrete patch that updates a file to more lines and deletes it: the report counts the lines before the update |
| `PatchEngine.AddMeaning` | agent/tools/apply_patch.ts:62-66 | adding needs a free path, which then holds the content, and counts its lines |
| `PatchEngine.DeleteMeaning` | agent/tools/apply_patch.ts:67-72 | deleting needs a file, which is gone then |
| `PatchEngine.UpdateMeaning` | agent/tools/apply_patch.ts:74-96 | updating needs a file that the hunks fit, and changes that file only |
| `PatchEngine.MoveMeaning` | agent/tools/apply_patch.ts:74-96 | moving also needs a free destination, which then holds the updated text, and leaves nothing behind |
| `PatchEngine.MoveNowhere` | agent/tools/apply_patch.ts:77-78 | a move to the file's own path, or to none, is an update in place |
| `PatchEngine.Sandbox.StageOne` | agent/tools/apply_patch.ts:57-96 | staging an operation shows the same conflict, or the same files and change, as applying it directly |
| `PatchEngine.Sandbox.StageAll` | agent/tools/apply_patch.ts:57-96 | the staging loop refines applying the operations one by one, and writes nothing |
| `PatchEngine.Sandbox.CommitOne` | agent/tools/apply_patch.ts:104-112 | writes a staged path exactly if its value differs from the one found |
| `PatchEngine.Sandbox.Commit` | agent/tools/apply_patch.ts:103-112 | an interrupted commit leaves each file old or final; a finished one all of them final |
| `PatchEngine.Sandbox.Execute` | agent/tools/apply_patch.ts:47-119 | any conflict is that of sequential application and leaves every file alone; otherwise the files are those of sequential application, the changes are too exactly when deletions count as found, and exactly the differing paths were written, each once |
| `ArchiveValue.EncodeWorks` | lib/workflow-archive.ts:258-274 | encoding fails exactly on invalid dates, and yields plain JSON values |
| `ArchiveValue.SurvivesExactly` | lib/workflow-archive.ts:258-288 | decoding an encoded value returns it if and only if its dates are valid and no record inside is a one-key `$binary` or `$date` string |
| `ArchiveValue.DecodedSurvives` | lib/workflow-archive.ts:276-288 | a decoded value always encodes, and to the same JSON if and only if its tagged strings were canonical |
| `ArchiveValue.DecodingIsStable` | lib/workflow-archive.ts:276-288 | whatever was decoded once survives every further round trip |
| `ArchiveValidator.RunsAreKeyedById` | lib/workflow-archive.ts:229-240 | runs are keyed by their id |
| `ArchiveValidator.RowsCollideExactly` | lib/workflow-archive.ts:229-240 | in a table keyed by two columns, rows with given first parts can share a key although their parts differ, if and only if one first part, followed by NUL, starts the other |
| `ArchiveValidator.JoinedKeysIdentify` | lib/workflow-archive.ts:229-240 | otherwise, and always without NUL in the first part, a shared key means equal parts |
| `ArchiveValidator.EventsCollide` | lib/workflow-archive.ts:233 | two concrete events with different parts and one key |
| `ArchiveValidator.OrderDoesNotMatter` | lib/workflow-archive.ts:153-226 | every permutation of the rows gets the same verdict |
| `ArchiveValidator.AddFaultMeaning` | lib/workflow-archive.ts:173-205 | a row is refused exactly when the rows with it would break the declarative row conditions |
| `ArchiveValidator.KeyMeaning` | lib/workflow-archive.ts:229-240 | which columns are the key of each archived table, and that no other table has one |
| `ArchiveValidator.TakesMeaning` | lib/workflow-archive.ts:173-205 | column by column: a row is taken exactly if there is room, its key columns are bounded texts and new, and it is a run of a requested tree or names a run; the tree of a run is the one its attributes name, if not blank, else its own |
| `ArchiveValidator.WholeExactly` | lib/workflow-archive.ts:153-226 | a whole archive in terms of its columns: distinct requested roots, rows taken one by one, no row naming a missing run, a run in every requested tree, and the counts of the manifest |
| `ArchiveValidator.CountsMeaning` | lib/workflow-archive.ts:209-212 | the counts name each table that occurs once, with the number of its rows, in the order of the names |
| `ArchiveValidator.RunsCounted` | lib/workflow-archive.ts:219-224 | the reported run count is the number of run rows |
| `ArchiveValidator.OnlyRequestedRoots` | lib/workflow-archive.ts:189-196 | no accepted run has a root that was not requested |
| `ArchiveValidator.Validator.Add` | lib/workflow-archive.ts:173-205 | takes the row or refuses it for exactly the specified fault; a new run is taken exactly if the root it names, or without such a name its own id, was requested |
| `ArchiveValidator.Validator.Finish` | lib/workflow-archive.ts:206-225 | accepts exactly the whole archives: the manifest has the format and counts, no row names a missing run, and every requested root has a run in its tree |
| `ArchiveWriter.CreatedHeaderFits` | lib/workflow-archive.ts:54-70 | a created header has unique roots, exactly the given ids that are not blank, and can be validated against |
| `ArchiveWriter.CreatedHeaderExactly` | lib/workflow-archive.ts:54-70 | a header is created, with its roots in order, if and only if the date is an ISO timestamp, the schema an identifier and some id not blank; each failure is reported as such, in that order |
| `ArchiveWriter.Accumulator.Add` | lib/workflow-archive.ts:123-134 | appends the row and returns its line, or refuses and changes nothing |
| `ArchiveWriter.Accumulator.Finish` | lib/workflow-archive.ts:135-143 | the manifest counts and hashes exactly the added rows |
| `ArchiveWriter.WrittenLineReads` | lib/workflow-archive.ts:72-120 | a written line is decoded to the value it was written from, for every value that exists at run time and survives encoding |
| `ArchiveFormats.LawsCanBeMet` | lib/workflow-archive.ts:72-85 | there are text formats that meet every law these theorems ask of JSON, base64, dates and hashes |
| `ArchiveText.LinesReadBackExactly` | lib/workflow-archive-file.ts:21-30 | lines written with a line feed each are read back as they were if and only if none holds a character at which the reader ends a line |
| `ArchiveText.LineEndMeaning` | lib/workflow-archive-file.ts:23 | a line ends at the first character that ends one, together with a line feed behind a carriage return, or with the text |
| `ArchiveRoundTrip.SameTextExactly` | lib/workflow-archive-file.ts:50 | the re-encoded rows have the text that was written if and only if every one-key `$binary` or `$date` string in them is the one encoding would write |
| `ArchiveRoundTrip.WrittenArchiveExactly` | lib/workflow-archive-file.ts:21-66 | for any header and any rows the accumulator takes: the archive verifies if and only if every row can be decoded, the decoded rows are complete under the header, and they hash to what the written ones hashed; the report then has the accumulated counts and hash |
| `ArchiveRoundTrip.CanonicalArchivesVerify` | lib/workflow-archive-file.ts:21-66 | as far as the digest tells the two texts apart, it verifies if and only if all such strings are as encoding writes them and the decoded rows are complete |
| `ArchiveRoundTrip.WrittenArchiveVerifies` | lib/workflow-archive-file.ts:21-66 | rows without such strings are read back unchanged, and verify if and only if they are complete under the header |
| `ArchiveRoundTrip.LooseRunIsRefused` | lib/workflow-archive.ts:276-280 | the archive of a complete run that holds a `$binary` string which is not base64, or not as base64 is written, is refused |
| `ArchiveRoundTrip.TreeVerifies` | lib/workflow-archive-file.ts:21-66 | the archive of a root and a child run that names it in its attributes verifies |
| `ArchiveOnDisk.WrittenFileExactly` | lib/workflow-archive-file.ts:21-66 | a file written line by line verifies if and only if no line holds a character at which the reader ends lines and the archive verifies |
| `ArchiveOnDisk.LineFeedsBreakNothing` | lib/workflow-archive.ts:72-74 | a reader that ends lines at line feeds and carriage returns only breaks no line |
| `ArchiveFile.LinesOfArchive` | lib/workflow-archive-file.ts:31-51 | in an archive the first line is the only header, the last the only manifest, and every line decodes |
| `ArchiveFile.HeaderMeaning` | lib/workflow-archive.ts:86-94 | a line is a header exactly with these fields: kind, format, texts and a list of root ids |
| `ArchiveFile.RowMeaning` | lib/workflow-archive.ts:95-100 | a line is a row exactly with kind, table and a record of columns, or a value without columns |
| `ArchiveFile.ManifestMeaning` | lib/workflow-archive.ts:101-117 | a line is a manifest exactly with kind, format, whole counts and a digest of 64 lower-case hexadecimal digits |
| `ArchiveFile.DecodedEncodes` | lib/workflow-archive-file.ts:50 | a decoded line can always be encoded again |
| `ArchiveFile.TakeRow` | lib/workflow-archive-file.ts:49-50 | validates the row and hashes its re-encoded text; a refused row means the file is no archive |
| `ArchiveFile.FinishFile` | lib/workflow-archive-file.ts:57-65 | accepts exactly if rows, manifest and checksum agree |
| `ArchiveFile.VerifyWorkflowArchiveFile` | lib/workflow-archive-file.ts:21-66 | the line loop accepts exactly the files that are a header, rows and a manifest forming a whole archive with the right checksum, and refuses exactly the others |
| `TranscriptRepair.ProjectEditedBranches` | server/thread-transcript-repair.ts:52-92 | the push-and-splice loop computes the projection |
| `TranscriptRepair.CutMeaning` | server/thread-transcript-repair.ts:57-88 | position by position where an edit cuts: behind its own last marker, then back to where the turn of its own last message, or without marker and message of the last message of all, was last started |
| `TranscriptRepair.OthersRemoveNothing` | server/thread-transcript-repair.ts:56-90 | any other event is added and removes nothing |
| `TranscriptRepair.Truncate` | server/thread-transcript-repair.ts:58-88 | splices exactly at the specified cut |
| `TranscriptRepair.ProjectionIsSubsequence` | server/thread-transcript-repair.ts:52-92 | the output is a subsequence ending in the last input event |
| `TranscriptRepair.AtMostOneMarker` | server/thread-transcript-repair.ts:60-66 | at most one clear marker remains per edited turn |
| `TranscriptRepair.FirstEditCuts` | server/thread-transcript-repair.ts:67-87 | the first edit of an intact turn keeps everything before the turn and nothing from it on |
| `TranscriptRepair.LegacyEditCuts` | server/thread-transcript-repair.ts:72-75 | a marker that names no known turn edits the turn of the last message instead, or nothing without a message |
| `TranscriptRepair.RepeatedEditCuts` | server/thread-transcript-repair.ts:60-71 | a repeated edit cuts at the turn's own marker and never further |
| `TranscriptRepair.EditedTurnsVanish` | server/thread-transcript-repair.ts:67-87 | on orderly streams nothing of an edited turn survives in front of its marker |
| `TranscriptRepair.IntactStreamsAreOrderly` | server/thread-transcript-repair.ts:67-87 | a stream is orderly if each turn, when first edited, has one start in front of its other events and a message, or nothing of it is projected any more |
| `TranscriptRepair.FirstEditRemovesExactly` | server/thread-transcript-repair.ts:67-87 | a first edit leaves nothing of its turn if and only if the turn begins where its last message was started, or has no message and begins behind the start of the last message of all, or is absent |
| `TranscriptRepair.EditedTurnsVanishExactly` | server/thread-transcript-repair.ts:52-92 | nothing of an edited turn survives in any prefix of a stream, if and only if every first edit of the stream meets that condition |
| `TranscriptRepair.UnstartedTurnVanishes` | server/thread-transcript-repair.ts:78-87 | a turn with a message and no start is removed wholly |
| `TranscriptRepair.RestartedTurnSurvives` | server/thread-transcript-repair.ts:78-87 | a concrete stream in which the first part of a turn that was started twice survives its edit |
| `TranscriptRepair.RetriedEditExactly` | server/thread-transcript-repair.ts:60-75 | a retried edit projects as if only the last try had happened, whatever follows, if and only if no message of the turn stands in front of the first marker |
| `TranscriptRepair.OrderlyRetriesVanish` | server/thread-transcript-repair.ts:60-75 | on orderly streams every retry is invisible |
| `AssetParts.ChunksAreExpected` | server/data/s3-asset-store.ts:999-1010 | the chunks of a body are the body, as many as declared, each of its expected size |
| `AssetParts.ExpectedSizesCover` | server/data/s3-asset-store.ts:999-1010 | expected sizes lie between one byte and a chunk and sum to the declared size |
| `AssetParts.ExpectedPartsComplete` | server/data/s3-asset-store.ts:776-800 | parts that each passed the size check complete the upload as soon as all numbers are there |
| `AssetParts.ExpectedExactly` | server/data/s3-asset-store.ts:999-1010 | after full chunks, a part is the expected one if and only if it is full or ends the declared size |
| `AssetParts.FullPartsAreChunks` | agent/lib/asset-import.ts:100-114 | full parts and a shorter tail are the chunks of what they hold |
| `AssetParts.PartsCovered` | server/data/s3-asset-store.ts:345-349 | as many distinct parts as the declared count are the parts 1 to n in order |
| `AssetParts.UpsertMeaning` | server/data/s3-asset-store.ts:296-302 | replacing or adding a part changes that number only and the total accordingly |
| `AssetParts.Upload.WritePart` | server/data/s3-asset-store.ts:278-322 | accepts a part exactly within the number, part size and declared total limits |
| `AssetParts.Upload.CompleteUpload` | server/data/s3-asset-store.ts:324-353 | accepts exactly when all parts are there and sum to the declared size; the object is their concatenation |
| `AssetParts.ChunksComplete` | server/data/s3-asset-store.ts:345-353 | the numbered chunks of a body complete its upload, and the object is the body |
| `AssetParts.WriteFullParts` | agent/lib/asset-import.ts:100-107 | writes full parts as long as enough is pending |
| `AssetParts.PersistBody` | agent/lib/asset-import.ts:84-117 | however the body is split into reads: a body of the declared size becomes its chunks 1..n and the object is the body; a longer one is over quota, a shorter one invalid |
| `Retention.GroupByRoot` | lib/workflow-retention.ts:60-66 | groups the runs into whole trees, in order of first appearance |
| `Retention.NewestOf` | lib/workflow-retention.ts:80-81 | the latest completion as Math.max computes it: invalid if any is invalid, else infinite if any is missing |
| `Retention.SortOut` | lib/workflow-retention.ts:67-84 | sorts the trees into active, protected and eligible ones |
| `Retention.SelectWorkflowRetentionCandidates` | lib/workflow-retention.ts:40-92 | selects as specified and, column by column, as SelectionMeaning states; refuses exactly the policies out of range |
| `Retention.SelectionMeaning` | lib/workflow-retention.ts:40-100 | column by column what is reported: the cutoff; the roots of settled, unprotected and old enough trees, each once, as many as allowed; all runs of these trees; the trees with an unsettled run; the settled ones with a protected id |
| `Retention.NewestMeaning` | lib/workflow-retention.ts:80-81 | the newest completion is attained by a run; it is invalid or missing exactly if one is, and else bounds all others |
| `Retention.EligibleExactly` | lib/workflow-retention.ts:67-84 | a tree is eligible if and only if all runs are terminal and unprotected and the cutoff is no date, a completion is invalid, or all completed by the cutoff |
| `Retention.PickedTrees` | lib/workflow-retention.ts:67-88 | picks eligible trees only, each once, as many as allowed |
| `Retention.OldestFirst` | lib/workflow-retention.ts:85-86 | as long as no run of a done, unprotected tree has an invalid date, no eligible tree left out comes strictly before a selected one in (completion, root id) order |
| `Retention.WholeTrees` | lib/workflow-retention.ts:87 | candidates are exactly the runs of the selected trees: trees are never split and no run is doubled |
| `Retention.CandidatesAreOld` | lib/workflow-retention.ts:67-84 | with a cutoff that is a date and no invalid date in a done, unprotected tree, every candidate is terminal, unprotected and completed by the cutoff |
| `Retention.AgeRespectedExactly` | lib/workflow-retention.ts:57-84 | all candidates are old enough, however many may be selected, if and only if, given any done, unprotected tree, the cutoff is a date and no such tree has an invalid date |
| `Retention.InvalidDateSelected` | lib/workflow-retention.ts:80-84 | a concrete run whose completion date is invalid is selected whatever the age |
| `Retention.EveryRootAccounted` | lib/workflow-retention.ts:67-91 | the reported active and protected roots are exactly those trees, and every other tree is eligible or too recent |

## Left out

- MailboxStore.DispatchNext: describes a pass that no one else disturbs; interleaved passes are the subject of MailboxProtocol.
- RunStore.SettleAcceptedSession: assumes no other writer of the row; RunLifecycle.NoOrphanedSession covers concurrent writers.
- RunStore.AttachSessionWithRetry: assumes no other writer of the row; interleaved attempts are in RunLifecycle.
- ArchiveRoundTrip.WrittenArchiveVerifies: covers rows without one-key `$binary` or `$date` strings; ArchiveRoundTrip.WrittenArchiveExactly covers all rows.
- PatchEngine.Sandbox.Execute: an interruption is an abort or a failing file access between two file writes; the temporary file and rename of one atomic write are not modelled, nor are the summed totals of the result.
- AssetParts.PersistBody: starts at an empty upload; the abort signal, network and store failures, and the abort of the upload after an error are not modelled.
- AssetParts.Upload.CompleteUpload: leaves out the completion lease, the parts payload of the caller, the provider call and scanning.
- TranscriptRepair.RetriedEditExactly: covers two tries with no other clear between them; with other clears between, truncation depends on their targets.
- Retention.PickedTrees: with invalid completion dates the comparison is inconsistent and the engine's order is its own; the model sorts by insertion, and claims an order only for valid dates (Retention.OldestFirst).
- Header values of hunks are natural numbers of any size; the source reads them as floating-point numbers.
- String lengths count characters, not UTF-16 units.
- A row that decodes to a date or a binary value is a record without columns; one in place of the manifest's table counts is refused on reading instead of on finishing.
- Values that JSON cannot express (undefined, functions, big integers, numbers that are not finite, the sign of zero) in archived rows.
- Reading an archive file piece by piece: the text of the file is split into lines as a whole.
- Argument length checks, payload shape checks, `last_error`, `updated_at` and the other timestamps that no statement reads.
- Shutdown listeners, handle identities, generations and statistics of the sandbox layers: they do not influence admission or stops.
- The reconciler of stale submissions (`server/agent-runs/reconcile.ts`): it may race a start in flight, so no session property is stated with it.
- `server/agent-mailbox/operation.ts`: the store does not consult its table and allows other transitions.
- Run input responses, parent validation and public snapshots of AgentRuns.
- HTTP routes, authentication, fetching, user interface, telemetry, configuration readers and the smaller stores that repeat these lease and selection patterns.
- Transcript coverage checks and the compaction of events: their helpers live in another package.
