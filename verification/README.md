# Verified models of the governed execution core

Dafny models of the parts of `eag` whose behaviour is easiest to get wrong: the execution graph and its batch
scheduler, the governed execution ledger with its audit projection and replanning policy, the approval protocol
around a process launch, bounded context selection, the write-once evidence stores, the artifact readiness verdict,
the autonomous loop and adaptive planning. `dafny verify dfyconfig.toml` checks everything.

## What is modelled

**Execution graph** (`ExecutionGraph.dfy`, `Levels.dfy`, `Scheduler.dfy`). Construction indexes the edges into
adjacency maps and runs a recursive depth-first search that mutates a visited set and a recursion stack. It raises
exactly on duplicate ids, on the first missing endpoint, or on a directed cycle. The scheduler drains a graph in ready
batches over an arbitrary, history-dependent worker pool. Unless fail-fast cuts it short, the k-th batch is the set of
nodes whose longest path has k edges, so the loop takes exactly height-many batches and its deadlock exit is never
taken; under every policy the dispatch order is a duplicate-free linear extension of the edges.

**Ledger** (`Ledger.dfy`, `LedgerRuns.dfy`, `LedgerSteps.dfy`, `LedgerInvariants.dfy`, `LedgerPaths.dfy`,
`Replanning.dfy`). Fourteen states, three budgets, a silent redirect to FAILED and a validator that replays the whole
history. The validated contexts are exactly the reachable ones; a transition is rejected only for an illegal edge or
an unfit stop reason; the traces of runs are exactly the legal paths the budget covers; a measure bounds every run by
ten steps an iteration and one. CONTINUE from the replanning policy guarantees the next iteration its budget, and runs
it governs take two iterations at most.

**Audit projection** (`Audit.dfy`, `AuditPayload.dfy`, `AuditAcceptance.dfy`, `AuditProjection.dfy`). A second
validator, written independently in the program, agrees with the first. Projection succeeds exactly on non-empty,
timezone-aware histories with well-formed digests; the payload form round-trips, and exactly the payloads carrying a
valid envelope's fields are accepted; and the envelopes of reachable contexts are exactly the valid envelopes whose
reasons meet the terminal contract, which the audit validator does not check itself
(`AuditProjection.UnfitReasonsValidate`).

**Approval** (`Approval.dfy`, `ApprovalCalls.dfy`, `ApprovalHistory.dfy`, `CommandExecution.dfy`, `ApprovalRace.dfy`).
Three views. One call at a time: the store, the manager and the command executor are classes whose methods are proved
against closed specifications of the store and the event log. Over any sequence of calls: the log rebuilds the store,
terminal requests are untouchable, reservations are conserved, an approval carries one run at most. Interleaved: any
number of executions sharing one approved id, cut into single reads, saves, swaps and launches; again one run at most.
Undisturbed, the interleaved steps are the whole calls.

**Context selection** (`ContextNeighborhood.dfy`, `ContextBudgeting.dfy`, `ContextExcerpts.dfy`,
`ContextSelection.dfy`). Depth-limited breadth-first expansion computes undirected distance, early exit included;
candidate scores only rise; ranked truncation, excerpt windows and the greedy character budget are exact, the two
omission dictionaries add up to the same total, and when an empty report means a complete selection is settled
exactly.

**Evidence stores** (`EvidenceStore.dfy`). The approval-evidence and composition-attestation stores share one
protocol, modelled once: a lock, exclusive creation and a write that may stop anywhere, interleaved with any number of
other claims, reads and crashes.

**Readiness, loop, planner** (`Readiness.dfy`, `ReadinessVerdict.dfy`, `ReadinessFindings.dfy`, `AutonomousLoop.dfy`,
`AdaptivePlanner.dfy`). READY is equivalent to a declarative predicate, and every finding to its cause; the default
autonomous loop ends properly; adaptive rewriting only inserts.

`Wrappers.dfy`, `Values.dfy` and `Ordering.dfy` hold option and result types, JSON values, blank, split and joined
text, code-point string order and a stable sort. Members named `...Exactly` state what the functions of the models
come to, apart from how these compute it.

### What the models say about the code

- *Naive timestamps.* The validator accepts records stamped with naive datetimes, which no transition writes
  (`LedgerRuns.NaiveRecordsValidate`). `LedgerRuns.ValidatedIsReachable` therefore says "valid and timezone-aware",
  and that is exactly the reachable set.
- *A consumed approval can be overwritten.* `_expire_if_needed` saves unconditionally. With an advancing clock, a call
  that read the approved request just before another consumed it can turn CONSUMED into EXPIRED
  (`ApprovalRace.StaleExpiryOverwritesConsumption`). It happens exactly when a call stands between its stale read and
  that save (`ApprovalRace.ConsumedChangesOnlyByStaleExpiry`, `ApprovalRace.ConsumedEndsExpiredExactly`), and never
  yields a second run.
- *Reservations do not lapse.* Expiry only looks at PENDING and APPROVED, so a reservation can be consumed after its
  expiry time (`ApprovalHistory.ReservationsOutliveExpiry`). A request is consumed late exactly when it was reserved in
  time and the consuming call came late (`ApprovalHistory.LateConsumptionExactly`).
- *FINISHED is weaker than succeeded.* The completion engine rules out failed runs only, so a cancelled or partial run
  with a passing review ends the default loop as FINISHED (`AutonomousLoop.FinishedNeedsNoSuccess`). Exactly these two
  outcomes make the difference (`AutonomousLoop.FinishedSucceedsExactly`). The shipped coordinator produces neither:
  its runs succeed or fail (src/eag/chief/runtime/coordinator.py:117 and 155), so with it a finished loop has succeeded
  (`AutonomousLoop.FinishedMeansSucceeded`).
- *Silent cuts.* An empty omission report does not mean nothing was cut: the summary is shortened to a quarter of the
  total (`ContextSelection.SilentSummaryCut`) and lines outside an excerpt's window are dropped
  (`ContextSelection.SilentWindowCut`) without a reason. Barring these two, it does
  (`ContextSelection.CompleteExactly`).
- *Same batches under every policy but one.* RETRY and FALLBACK behave like CONTINUE in the code; only FAIL_FAST is
  looked at.

### Reading the models

SHA-256, JSON encoding and ISO-8601 text are arbitrary function values: a `Codec` passed to the members that use
them, with hypotheses such as "decoding inverts encoding" collected in `Sound()`; the lemmas `SoundCodecsExist` show
that each such collection can be met. Clock readings, worker outcomes, file contents and process results are parameters
in the same way. Timestamps are integers. Exceptions are `Result` values. Classes appear where the program mutates
objects; pure code is functions.

## Model

| member | source | states |
|---|---|---|
| ExecutionGraphs.Build | src/eag/execution_graph/graph.py:19-41 | Construction succeeds exactly on unique ids, existing endpoints and no directed cycle, with exact adjacency; otherwise it raises the first applicable error |
| ExecutionGraphs.IndexEdges | src/eag/execution_graph/graph.py:30-39 | Adjacency maps list every child and parent; the error names the endpoint the loop stumbles over, source before target, at the first bad edge |
| ExecutionGraphs.CycleSearch.Dfs | src/eag/execution_graph/graph.py:48-57 | Terminates; reports a cycle only if there is one; otherwise restores the recursion stack and leaves all newly visited nodes finished |
| ExecutionGraphs.CheckCycles | src/eag/execution_graph/graph.py:43-64 | Raises if and only if the edges contain a directed cycle; otherwise a post-order exists |
| ExecutionGraphs.PostOrderExcludesCycles | src/eag/execution_graph/graph.py:43-64 | An order listing children before parents rules out every cycle, of any length |
| ExecutionGraphs.ValidGraphsAreAcyclic | src/eag/execution_graph/graph.py:41-64 | Every constructed graph is acyclic |
| ExecutionGraphs.AddNode | src/eag/execution_graph/graph.py:74-75 | Succeeds exactly for a new id; no other error is possible; the result is a valid graph |
| ExecutionGraphs.AddEdge | src/eag/execution_graph/graph.py:77-78 | Succeeds exactly when both ends exist and the edge closes no cycle; otherwise names the missing end, source first, or the cycle |
| Levels.LevelIsLayer | src/eag/execution_graph/graph.py:86-97 | A longest path of k edges, starting at a root, is the same as becoming shallow between k and k+1 |
| Levels.ReadyIsLevelBatch | src/eag/execution_graph/graph.py:86-97 | Once exactly the shallower nodes are resolved, the ready list is level k, each node once, sorted by id |
| Levels.BatchesIgnoreDeclarationOrder | src/eag/execution_graph/graph.py:86-97 | Two graphs with the same nodes and edges, however declared, have the same k-th batch |
| Levels.SomeNodeIsReady | src/eag/execution_graph/graph.py:86-100 | While a graph is incomplete some node is ready, whatever set is resolved |
| Levels.ReadyExactly | src/eag/execution_graph/graph.py:86-100 | Ready: unresolved with all parents resolved, for any resolved set; complete: nothing unresolved |
| Scheduler.ExecuteBatch | src/eag/execution_graph/executor.py:37-65 | Completed, failed and results are the outcomes of a prefix of the batch; the prefix is proper only when fail-fast met a failing worker, and a missing worker never stops it |
| Scheduler.Execute | src/eag/execution_graph/runtime.py:31-54 | Batches are levels, dispatch is a linear extension without repetition, completed and failed are disjoint and closed under parents, no deadlock exit; fail-fast stops with the batch in which something first failed, a missing worker included; without such a failure they partition the nodes after height-many batches |
| Scheduler.ResolvedIsDispatched | src/eag/execution_graph/executor.py:43-65 | Every dispatched node is completed or failed, and not both when ids are distinct |
| Scheduler.OutcomesExactly | src/eag/execution_graph/executor.py:43-65 | An id is completed exactly for a succeeding worker, failed exactly for a failing or missing one |
| Scheduler.ResultsExactly | src/eag/execution_graph/executor.py:43-65 | A node has a result exactly where a worker ran, and it is that worker's |
| Scheduler.DispatchLevel | src/eag/execution_graph/runtime.py:36-54 | Dispatching any prefix of the next level keeps the order a linear extension |
| Ordering.StringLeExactly | src/eag/execution_graph/graph.py:86-97 | The order node ids are sorted by: a prefix first, else the smaller character where they first differ |
| Ordering.SortIsStable | src/eag/adaptive/strategies.py:27-36 | Sorting keeps the order of what the key cannot tell apart |
| Ledger.ValidateHistory | src/eag/governed_execution/models.py:300-363 | The loop over running counters reports the first error of the history scan, or the first mismatch with the context's fields |
| LedgerRuns.AcceptanceIsExact | src/eag/governed_execution/state_machine.py:57-149 | On a valid context and legal target: accepted if and only if the budget is exhausted or the reason fits; the new context is valid and differs by exactly one record |
| LedgerSteps.StepExactly | src/eag/governed_execution/state_machine.py:100-149 | The whole context and record an accepted request leaves: state, iteration, budget, evidence, reason, sequence, clock |
| LedgerSteps.ExhaustionIsNamed | src/eag/governed_execution/state_machine.py:108-129 | An exhausted budget ends the ledger in FAILED under that budget's own reason, in context and record; without exhaustion the reason is the requested one |
| LedgerSteps.LegalEdgesExactly | src/eag/governed_execution/models.py:19-72 | Legal edges are the forward lifecycle, failing from any running state that does not wait on a person, aborting from the two that do and from planning |
| LedgerSteps.ReasonsExactly | src/eag/governed_execution/models.py:120-139 | Which reasons each state accepts |
| LedgerSteps.RecordErrorsAreTrue | src/eag/governed_execution/models.py:308-331 | A record is refused exactly when something is wrong with it, and the error names something wrong with it |
| LedgerSteps.TotalErrorsAreTrue | src/eag/governed_execution/models.py:333-349 | Likewise for the totals |
| LedgerSteps.StartErrorsAreTrue | src/eag/governed_execution/models.py:351-363 | Likewise for a context without history |
| LedgerRuns.RejectionCodes | src/eag/governed_execution/state_machine.py:57-77 | A rejection returns the context unchanged with illegal_transition or invalid_stop_reason; budget_exhausted and invalid_transition_input never occur |
| LedgerRuns.RedirectIsLegal | src/eag/governed_execution/state_machine.py:108-129 | The redirect to FAILED lands on a legal edge and cannot occur from CREATED |
| LedgerRuns.RunKeepsValid | src/eag/governed_execution/state_machine.py:46-149 | Every run from a valid context stays valid, keeps the fixed fields and the history so far, and adds one timezone-aware record a step |
| LedgerRuns.UndoLastRecord | src/eag/governed_execution/models.py:300-349 | Dropping the last record of a valid ledger leaves a valid ledger, and one transition restores it |
| LedgerRuns.ReplayRebuilds | src/eag/governed_execution/models.py:300-363 | Replaying a valid history record by record is accepted throughout and rebuilds the context |
| LedgerRuns.SameHistorySameContext | src/eag/governed_execution/models.py:321-363 | Two valid contexts with the same history and fixed fields are equal |
| LedgerRuns.ValidatedIsReachable | src/eag/governed_execution/models.py:300-363 | A context with aware timestamps passes validation if and only if some run reaches it |
| LedgerRuns.NaiveRecordsValidate | src/eag/governed_execution/models.py:243-260 | A one-record ledger with a naive timestamp passes validation and is reached by no run |
| LedgerInvariants.CountersStayInStep | src/eag/governed_execution/models.py:181-215 | verifications <= mutations <= iterations <= verifications + 1, and at most 10 records an iteration and one |
| LedgerInvariants.TransitionsUseUpTheMeasure | src/eag/governed_execution/state_machine.py:100-149 | A nonnegative measure falls on every accepted transition |
| LedgerInvariants.RunsAreBounded | src/eag/governed_execution/state_machine.py:46-77 | No run has more than 10 * max_iterations + 1 steps |
| LedgerInvariants.OneMutationPerIteration | src/eag/governed_execution/models.py:19-72 | MUTATING entries carry strictly growing iterations |
| LedgerInvariants.CompletedLedgersEndVerified | src/eag/governed_execution/models.py:19-72 | A completed ledger ends AUTHORIZING, MUTATING, VERIFYING, COMPLETED within one iteration |
| LedgerPaths.LegalPathsAreRuns | src/eag/governed_execution/state_machine.py:46-149 | Any legal path the budget covers is accepted step by step and leaves exactly that trace and those counters |
| LedgerPaths.TracesAreLegalPaths | src/eag/governed_execution/models.py:300-349 | The trace of an accepted history is a legal path and the counters are its visits |
| LedgerPaths.RunsAreExactlyLegalPaths | src/eag/governed_execution/models.py:19-72 | Traces of runs from a created context are exactly the affordable legal paths |
| LedgerPaths.IterationIsOpen | src/eag/governed_execution/models.py:19-72 | With one unit left of each budget an iteration can be run to COMPLETED, and to REPLANNING |
| LedgerPaths.EveryLedgerCanEnd | src/eag/governed_execution/models.py:19-72 | Every unfinished ledger is one accepted transition from a terminal state |
| ReplanningPolicy.ContinueExactly | src/eag/governed_execution/replanning.py:180-215 | On valid ledgers CONTINUE means: failed verification, objective open, first iteration, every maximum at least two |
| ReplanningPolicy.ReasonCodesExactly | src/eag/governed_execution/replanning.py:190-206 | The reason code of every outcome, by verification, iteration and remaining capacity |
| ReplanningPolicy.ContinueLeavesCapacity | src/eag/governed_execution/replanning.py:180-215 | After CONTINUE no entry of the next iteration is redirected to budget exhaustion, whatever accepted steps come between |
| ReplanningPolicy.ContinueCanSucceed | src/eag/governed_execution/replanning.py:180-215 | After CONTINUE the next iteration can be run to COMPLETED |
| ReplanningPolicy.GovernedRunsTakeTwoIterations | src/eag/governed_execution/replanning.py:180-215 | Runs re-entering context assembly only on CONTINUE have at most two iterations |
| Audit.ValidateStructure | src/eag/governed_audit/models.py:216-258 | The audit loop accepts exactly the histories its replay accepts with matching totals |
| AuditPayload.PayloadRoundTrip | src/eag/governed_audit/models.py:260-291 | Reading back the payload of a valid envelope gives the same envelope |
| AuditPayload.StateTexts | src/eag/governed_execution/enums.py:8-24 | States and dispositions are written under their declared values |
| AuditPayload.ReasonTexts | src/eag/governed_execution/enums.py:36-48 | So are stop reasons |
| AuditPayload.KindTexts | src/eag/governed_execution/enums.py:51-62 | So are evidence kinds |
| AuditPayload.FromPayload | src/eag/governed_audit/models.py:353-386 | Whatever is read back is a valid envelope |
| AuditPayload.EnvelopesExactly | src/eag/governed_audit/models.py:186-211 | What makes an envelope valid, spelled out, records and evidence included |
| AuditAcceptance.AcceptedExactly | src/eag/governed_audit/models.py:353-386 | A payload is accepted as an envelope if and only if it carries that envelope's fields, up to absent defaults and other texts of the same instants, and the envelope is valid, blank names excluded and any falsy digest admitted |
| AuditAcceptance.ParseRecordExactly | src/eag/governed_audit/models.py:149-168 | The same, record by record |
| AuditPayload.RecordRoundTrip | src/eag/governed_audit/models.py:78-168 | Each record, with its reason, timestamp and evidence, reads back from its payload |
| AuditPayload.DigestIdentifiesEnvelope | src/eag/governed_audit/models.py:216-291 | Two valid envelopes share a record digest if and only if they are equal or their bodies are a digest collision |
| AuditProjection.ValidatorsAgree | src/eag/governed_audit/models.py:216-258 | Whatever the ledger's validator accepts, the audit replay follows with the same counters and evidence |
| AuditProjection.ProjectionSucceedsExactly | src/eag/governed_audit/models.py:293-351 | A valid context projects exactly when its history is non-empty, timezone-aware and its digests are well formed, and a given disposition says terminal just when the state is |
| AuditProjection.ProjectionFields | src/eag/governed_audit/models.py:293-351 | What the envelope takes over from the context, field by field |
| AuditProjection.LiftedHistoryScans | src/eag/governed_audit/models.py:216-258 | Conversely, what the audit replay accepts with fitting reasons, the ledger's validator accepts |
| AuditProjection.EnvelopesOfReachableContexts | src/eag/governed_audit/models.py:293-351 | Envelopes of reachable contexts are exactly the valid ones with fitting reasons and a goal behind their digest |
| AuditProjection.UnfitReasonsValidate | src/eag/governed_audit/models.py:216-258 | A valid envelope with an unfit reason, which no reachable context projects to |
| Approval.InMemoryApprovalStore.Transition | src/eag/approval/store.py:113-134 | Compare-and-swap: replaces the entry exactly when it has the expected status, and changes nothing else |
| Approval.InMemoryApprovalStore.Save | src/eag/approval/store.py:88-97 | Overwrites an existing entry unconditionally |
| Approval.ApprovalManager.Create | src/eag/approval/manager.py:46-76 | New pending request, or an error and no change; store and log move as specified, the log still rebuilding the store |
| Approval.ApprovalManager.Approve | src/eag/approval/manager.py:93-133 | Only a live pending request is approved; a lapsed one is recorded as expired while the call raises |
| Approval.ApprovalManager.Reject | src/eag/approval/manager.py:135-175 | Only a live pending request is rejected |
| Approval.ApprovalManager.Reserve | src/eag/approval/manager.py:177-226 | Swaps approved for reserved on an exact command match |
| Approval.ApprovalManager.Release | src/eag/approval/manager.py:228-263 | Swaps reserved back to approved |
| Approval.ApprovalManager.Consume | src/eag/approval/manager.py:265-323 | Swaps reserved for consumed; a changed command releases and raises |
| Approval.ApprovalManager.Expire | src/eag/approval/manager.py:325-361 | Expires exactly the pending or approved requests past due |
| Approval.ApprovalManager.ExpireIfNeeded | src/eag/approval/manager.py:363-388 | Saves and publishes an expiry exactly when the given snapshot lapses |
| ApprovalCalls.CreateExactly | src/eag/approval/manager.py:46-76 | When creation succeeds, what it stores and publishes, and which error it raises otherwise |
| ApprovalCalls.ApproveExactly | src/eag/approval/manager.py:93-133 | Approval succeeds exactly on a stored pending request not past its expiry, and stores it approved with time and reason |
| ApprovalCalls.RejectExactly | src/eag/approval/manager.py:135-175 | Rejection, on the same condition, stores it rejected |
| ApprovalCalls.ReserveExactly | src/eag/approval/manager.py:177-226 | Reservation succeeds exactly on an approved request for that command not past its expiry |
| ApprovalCalls.ReleaseExactly | src/eag/approval/manager.py:228-263 | Release succeeds exactly on a reserved request and makes it approved again |
| ApprovalCalls.ConsumeExactly | src/eag/approval/manager.py:265-323 | Consumption succeeds exactly on a reservation for that command; for another command the reservation is released |
| ApprovalCalls.ExpireExactly | src/eag/approval/manager.py:325-361 | Expiry succeeds exactly on a pending or approved request whose expiry has come |
| ApprovalCalls.ReplayKeepsLatest | src/eag/approval/manager.py:46-388 | Folding a log leaves each id as its latest event says |
| ApprovalHistory.CallsRecordOneEvent | src/eag/approval/manager.py:46-388 | A call changes nothing, or stores and publishes one request that legally continues its own history and keeps its identity |
| ApprovalHistory.LogRebuildsStore | src/eag/approval/manager.py:46-388 | After any calls, raising or not, the log rebuilds the store and every event was a legal step |
| ApprovalHistory.TerminalIsAbsorbing | src/eag/approval/manager.py:46-388 | The command of a request never changes; rejected, consumed and expired requests are never touched again |
| ApprovalHistory.ReservationsAreConserved | src/eag/approval/manager.py:177-323 | Reservations made = released + consumed + still held, per id; at most one consumption |
| ApprovalHistory.TimesAlwaysFit | src/eag/approval/manager.py:93-388 | No request is decided at or past its expiry; decision and consumption times are there exactly when they should be |
| ApprovalHistory.ConsumptionIsAcceptedExactly | src/eag/approval/manager.py:265-323 | A consumption succeeds if and only if the request is stored, reserved and for that command, whatever its expiry |
| ApprovalHistory.LateConsumptionExactly | src/eag/approval/manager.py:177-388 | Over any calls on an empty store, a request ends up consumed past its expiry if and only if one call reserved it in time and a later one consumed it late |
| ApprovalHistory.ReservationsOutliveExpiry | src/eag/approval/manager.py:265-388 | Four calls on an empty store that do so: created to expire at 10, approved at 1, reserved at 2, consumed at 99 |
| CommandExecution.CommandExecutor.Authorize | src/eag/execution/executor.py:94-135 | Policy and reservation let a call launch exactly when allowed or backed by a usable approval; otherwise the error belonging to the policy verdict or the approval's status is raised and published, and the store is as specified |
| CommandExecution.CommandExecutor.Execute | src/eag/execution/executor.py:75-222 | The process runs exactly when found, permitted and launchable, with a usable approval where required; then the approval is spent, otherwise the call raises its exact error and the store is as before save for a recorded expiry |
| CommandExecution.AnswersExactly | src/eag/execution/executor.py:86-222 | The result or error of a call, read off its fields and the request it names: exit code, timeout, denial and every refusal |
| CommandExecution.SettlesExactly | src/eag/execution/executor.py:104-203 | The approvals a call leaves behind, likewise |
| CommandExecution.NoticesExactly | src/eag/execution/executor.py:86-222 | What is published with each outcome |
| CommandExecution.OneRunPerApproval | src/eag/execution/executor.py:104-203 | Over any sequence of manager calls and executions an approval carries at most one run, and is consumed after it |
| CommandExecution.UndisturbedStepsAreExecute | src/eag/execution/executor.py:104-203 | The interleaved steps of one undisturbed call end in the status and result of the whole call |
| ApprovalRace.StepKeepsInv | src/eag/execution/executor.py:104-203 | Every single step of every call keeps the invariant about holder, status and launches |
| ApprovalRace.OneRunPerApproval | src/eag/execution/executor.py:104-203 | Under every interleaving at most one call reaches a run or timeout; afterwards the request is never approved again, and it is consumed or expired once that call has ended |
| ApprovalRace.RunIsConsumedUnlessDue | src/eag/execution/executor.py:145-203 | While nothing falls due the request never expires, and the call that ran still holds the reservation or has returned with the approval consumed |
| ApprovalRace.ConsumedChangesOnlyByStaleExpiry | src/eag/approval/manager.py:363-388 | A consumed approval changes on a step exactly when a call saves an expiry from a stale read |
| ApprovalRace.ConsumedEndsExpiredExactly | src/eag/approval/manager.py:363-388 | Over any schedule, an approval once consumed ends expired exactly when some turn made such a save, and otherwise consumed |
| ApprovalRace.StaleExpiryOverwritesConsumption | src/eag/approval/manager.py:363-388 | A schedule under an advancing clock that does so |
| ApprovalRace.SoloReserveIsReserve | src/eag/approval/manager.py:177-226 | Undisturbed, the steps of a reservation are the manager call |
| ApprovalRace.SoloConsumeIsConsume | src/eag/approval/manager.py:265-323 | Undisturbed, the steps of a consumption are the manager call, release on a changed command included |
| ContextNeighborhood.BallIsDistance | src/eag/context/selection.py:309-350 | Iterated expansion is undirected distance: within depth if and only if a walk of that length exists |
| ContextNeighborhood.Expand | src/eag/context/selection.py:324-340 | The frontier loop, with its early exit, visits exactly the ball of the given depth |
| ContextNeighborhood.FrontierSuffices | src/eag/context/selection.py:324-340 | Expanding the last frontier finds every new node expanding everything would |
| ContextNeighborhood.TargetsExactly | src/eag/context/selection.py:292-323 | Seeds and structural neighbours, member by member |
| ContextNeighborhood.ImpactExactly | src/eag/context/selection.py:309-350 | Edges join both ways; impacted are the symbols of nodes within the ball but not among the seeds |
| ContextNeighborhood.RaisedExactly | src/eag/context/selection.py:300-307 | An entry is replaced exactly to better its score |
| ContextNeighborhood.CandidateSets.AddDirectStructure | src/eag/context/selection.py:292-307 | Raises exactly the symbols at either end of a dependency touching a targeted module; no score falls |
| ContextNeighborhood.CandidateSets.AddGraphNeighborhood | src/eag/context/selection.py:309-350 | Raises exactly the symbols of nodes within distance, seeds excepted; no score falls |
| ContextNeighborhood.CandidateSets.AddSymbolFiles | src/eag/context/selection.py:352-365 | Each file entry is its old one, if no symbol of the file beats it, or that of the first best symbol in dictionary order; no score falls |
| ContextBudgeting.TruncationKeepsTheBest | src/eag/context/selection.py:636-643 | Kept and omitted share out all candidates; nothing kept scores below something omitted, and on equal scores reason, then key, comes no later; best first |
| ContextBudgeting.GreedyFitsAndIsMaximal | src/eag/context/selection.py:577-610 | The greedy pass stays within the limit and each omitted text would overflow the final total |
| ContextBudgeting.GreedyExactly | src/eag/context/selection.py:588-603 | Each text is kept exactly when it fits after those kept before it |
| ContextBudgeting.SelectExactly | src/eag/context/selection.py:588-603 | What is kept keeps its order |
| ContextBudgeting.ApplyTotalBudget | src/eag/context/selection.py:577-610 | Never above the total; summary, findings, excerpts in that priority, each item kept while it fits; counts add up; both selections are maximal |
| ContextBudgeting.BumpAddsToSum | src/eag/context/selection.py:114-134 | Counting an omission moves one key and the dictionary's sum by that much |
| ContextExcerpts.WindowShowsAll | src/eag/context/selection.py:424-429 | A window shows a text whole exactly when it starts at the top and is long enough, or there is no text |
| ContextExcerpts.WindowLines | src/eag/context/selection.py:424-429 | Which lines a window holds, one by one, and that its text splits back into them |
| ContextExcerpts.ExcerptFields | src/eag/context/selection.py:424-445 | Path, first and last line and text of an excerpt |
| ContextExcerpts.ChosenExactly | src/eag/context/selection.py:408-419 | A file is shown exactly when it is readable and fewer than the limit are shown before it |
| ContextExcerpts.Excerpts | src/eag/context/selection.py:393-457 | One excerpt, with its exact window and lines, for each of the first readable files up to the limit; a tally of every reason against the others |
| ContextExcerpts.NoReasonsExactly | src/eag/context/selection.py:408-433 | No reason is recorded exactly when the files are within the limit, all readable, and no window needs a character cut |
| ContextExcerpts.ExcerptsShowAllExactly | src/eag/context/selection.py:393-457 | The retained excerpts show every file whole exactly when none is dropped, no reason is recorded and every text fits its window |
| ContextSelection.ReportOmissions | src/eag/context/selection.py:105-134 | Omitted counts and omission reasons have the same sum, and each holds exactly its amounts |
| ContextSelection.ReportsExactly | src/eag/context/selection.py:114-134 | Which amount is reported under which name and which reason |
| ContextSelection.Run | src/eag/context/selection.py:44-134 | From the ranked candidates on, the best files, symbols and dependencies are kept, the selection stays within every limit and is maximal; the report adds up to exactly what was left out; the selection is complete if and only if the report is empty, the summary is at most a quarter of the total and every readable text fits its window |
| ContextSelection.CompleteExactly | src/eag/context/selection.py:44-134 | The if-and-only-if behind it |
| ContextSelection.SilentSummaryCut | src/eag/context/selection.py:585-587 | A summary over a quarter of the total is cut under an empty report |
| ContextSelection.SilentWindowCut | src/eag/context/selection.py:424-433 | Lines outside an excerpt's window are cut under an empty report |
| EvidenceStore.FileEvidenceStore.Claim | src/eag/governed_approval/store.py:86-103 | One locked claim: claimed, duplicate for equal evidence, conflict for other evidence, corrupt, or unavailable, with its exact effect on disk |
| EvidenceStore.ClaimExactly | src/eag/governed_approval/store.py:86-103 | Outcome and files of one claim, by what is stored and what the operating system does |
| EvidenceStore.LookExactly | src/eag/governed_approval/store.py:147-166 | A record is evidence exactly if it decodes under the id it names |
| EvidenceStore.FileEvidenceStore.WriteUnlocked | src/eag/governed_approval/store.py:168-194 | Exclusive creation; a stopped write leaves exactly what it got out |
| EvidenceStore.StepKeepsInv | src/eag/governed_composition/store.py:86-194 | Every step of every interleaved claim, read, crash or refusal keeps the invariant |
| EvidenceStore.EvidenceIsWrittenOnce | src/eag/governed_composition/store.py:86-109 | Each id is claimed at most once; all evidence ever reported for an id is the same; duplicate exactly on equal and conflict on different evidence |
| EvidenceStore.ClaimedStaysReadable | src/eag/governed_approval/store.py:86-109 | Once claimed, evidence is readable for ever, and every later claim or read of its id says duplicate, conflict or that evidence, or is unavailable |
| EvidenceStore.StoppedWriteAbandonsRecord | src/eag/governed_approval/store.py:168-194 | A write that crashes or is refused midway leaves an abandoned record |
| EvidenceStore.AbandonedFailsClosed | src/eag/governed_approval/store.py:147-166 | From then on the record never changes and every claim or read of that id fails closed |
| EvidenceStore.UndisturbedClaimIsAtomic | src/eag/governed_approval/store.py:86-103 | Left alone with the lock, the steps of a claim are the whole claim |
| Readiness.FindingLog.ValidateReceipts | src/eag/governed_artifact_readiness/validator.py:174-212 | The receipt loop and the required classes append exactly the findings of the fold |
| Readiness.FindingLog.ClassifyHygiene | src/eag/governed_artifact_readiness/validator.py:215-247 | Appends the malformed-input finding and one finding per violated policy entry |
| ReadinessVerdict.Assess | src/eag/governed_artifact_readiness/validator.py:42-95 | Disposition and canonical findings of all checks in order |
| ReadinessVerdict.SilentReceiptFold | src/eag/governed_artifact_readiness/validator.py:174-212 | Receipts raise no finding exactly when all are acceptable and of distinct classes |
| ReadinessVerdict.ReadyExactly | src/eag/governed_artifact_readiness/validator.py:42-95 | READY if and only if profile, binding, modules, entrypoints, receipts and hygiene are all in order |
| ReadinessFindings.DispositionsExactly | src/eag/governed_artifact_readiness/validator.py:58-95 | Unsupported for a foreign profile or backend, ready without any cause for a finding, not ready otherwise |
| ReadinessFindings.FindingsExactly | src/eag/governed_artifact_readiness/validator.py:58-247 | A finding, with its code and reference, is reported if and only if its cause is present |
| ReadinessFindings.ReceiptFindingsExactly | src/eag/governed_artifact_readiness/validator.py:174-212 | Which complaint each receipt draws, given those before it |
| ReadinessFindings.PolicyMatchesExactly | src/eag/governed_artifact_readiness/validator.py:250-253 | A policy path matches itself and what lies under it, the egg-info pattern such directories anywhere |
| ReadinessFindings.FindingOrderExactly | src/eag/governed_artifact_readiness/validator.py:263-287 | Findings are ordered by the text of their code, then by reference |
| ReadinessVerdict.DispositionIgnoresArrangement | src/eag/governed_artifact_readiness/validator.py:42-95 | Permuting receipts and rearranging observed paths does not change the disposition |
| ReadinessVerdict.CanonicalFindingsAreStrict | src/eag/governed_artifact_readiness/models.py:475-502 | Reported findings are the collected ones and pass the assessment's strict-order check |
| AutonomousLoop.AutonomousLoopRuntime.Execute | src/eag/autonomous/runtime.py:83-224 | For any engines: the recorded iterations, outcome, decision, state and metrics of the iteration where the loop ends |
| AutonomousLoop.DefaultEnding | src/eag/autonomous/completion.py:12-75 | Under the default engines the loop ends at the first iteration that oscillates or decides |
| AutonomousLoop.EndingExactly | src/eag/autonomous/runtime.py:91-211 | Under any engines the loop ends in the first iteration with a reason: oscillation before pause before aborting recovery before decision; without any, by running out |
| AutonomousLoop.ResultsExactly | src/eag/autonomous/runtime.py:91-224 | State, outcome and final decision of every ending |
| AutonomousLoop.MetricsExactly | src/eag/autonomous/runtime.py:317-329 | Totals, successes, failures and replans as numbers of iterations |
| AutonomousLoop.EvaluateExactly | src/eag/autonomous/completion.py:12-75 | The default decision in each of its six cases |
| AutonomousLoop.RecoverExactly | src/eag/autonomous/recovery.py:11-55 | The default recovery action of each policy |
| AutonomousLoop.AbabExactly | src/eag/autonomous/runtime.py:298-306 | The window is two different plans, twice |
| AutonomousLoop.DefaultLoopEndsProperly | src/eag/autonomous/runtime.py:83-224 | Iterations 1..n with 1 <= n <= max, no exhaustion fallback, FINISHED exactly on a satisfied last run without oscillation, stop at the first ABAB window, successes + failures = total |
| AutonomousLoop.WindowIsHistory | src/eag/autonomous/runtime.py:298-306 | The four-plan window over the kept history is the ABAB pattern of the last four runs |
| AutonomousLoop.FinishedSucceedsExactly | src/eag/autonomous/completion.py:12-75 | A finished loop ends on a success if and only if its last run was neither cancelled nor partial |
| AutonomousLoop.FinishedMeansSucceeded | src/eag/chief/runtime/coordinator.py:115-117 | Where runs only succeed or fail, finishing means the last run succeeded |
| AutonomousLoop.FinishedNeedsNoSuccess | src/eag/autonomous/completion.py:12-75 | A cancelled run with a passing review finishes the loop without any success |
| AdaptivePlanner.Plan | src/eag/adaptive/planner.py:27-74 | Applied and ignored rules and the rewritten steps; raises exactly when some matching rule would insert a step under a blank name |
| AdaptivePlanner.PlanDraft.ApplyAction | src/eag/adaptive/planner.py:95-119 | Inserts in place exactly as the action asks; reports an action not understood, or raises on a blank step name, and then changes nothing |
| AdaptivePlanner.ParseExactly | src/eag/adaptive/planner.py:95-119 | What each action, as a list of colon-separated words, asks for |
| AdaptivePlanner.InsertExactly | src/eag/adaptive/planner.py:104-117 | Where an inserted step lands |
| AdaptivePlanner.RewriteOne | src/eag/adaptive/planner.py:44-56 | Rules take effect one after the other |
| AdaptivePlanner.RuleOrderExactly | src/eag/adaptive/strategies.py:27-36 | Critical rules first and low ones last, then the surer, then by id |
| AdaptivePlanner.WorkerNamesAreNotBlank | src/eag/chief/runtime/models.py:55-57 | An inserted worker step never has a blank name |
| AdaptivePlanner.RulesArePartitionedInOrder | src/eag/adaptive/strategies.py:27-36 | Applied and ignored rules share out the supplied ones, each in priority order |
| AdaptivePlanner.PlansExtendTheBase | src/eag/adaptive/planner.py:35-63 | Base steps survive in order; one step more per applied rule |

## Left out

- Per-field type checks of constructors, fields being well typed by construction here; blank checks are kept for the names of contexts and envelopes, for audit reference ids and for plan steps, and left out elsewhere, as for reference ids in the ledger.
- SHA-256, JSON text, UTF-8 and ISO-8601 text at byte level: arbitrary functions with stated hypotheses.
- AuditPayload.FromPayload: every failure is one error here; the code lets an `OverflowError` escape for an instant that leaves the calendar in UTC, such as "0001-01-01T00:00:00+14:00".
- AuditAcceptance.AcceptedExactly: falsy digests are compared as written; in the code `false`, `0` and `0.0` are equal, so an envelope mixing them between its history and its evidence passes there.
- Evidence metadata is one opaque string, dropped by the audit projection as in the code.
- `validate_fresh_iteration`: independent field comparisons.
- ApprovalRace.OneRunPerApproval: other manager calls, such as approve, reject, release or expire from outside, are not interleaved there; CommandExecution.OneRunPerApproval covers them one call at a time.
- CommandExecution.CommandExecutor.Execute: resolving the working directory and publishing after the reservation do not fail, nor does the launch in other ways than by timeout or operating system error; output decoding and truncation are not modelled.
- Exceptions raised by workers, by the approval manager's event handlers and by completion or recovery engines.
- Scheduler.ExecuteBatch: the payload of worker results and their timing; a result is a success flag.
- ContextSelection.Run: starts from the candidates, with the texts they sort by, and from the summary after its own limit; lexical scoring and the dependency candidates are outside it, and the three expansion passes before it are modelled on their own.
- Lexical scoring, provenance records, summary text, redaction and usage figures of the context package.
- Path resolution, symbolic links, file sync and the ways a lock can fail; a store call can be refused or crash at any step instead.
- Evidence references, recommendations, packaging text parsing and the digest of a readiness assessment.
- Durations and the resumption of paused runs in the autonomous loop.
- AdaptivePlanner.Plan: condition matching is a parameter, confidence is a real number, and the strategy is the default one.
- ArtifactGraph, roots and leaves, the destination and work-order assessors, the command line and the event bus.
