/** The governed execution ledger: legal transitions, budgets, the history validator and `transition`. */
module Ledger {
  import opened Wrappers
  import opened Values

  datatype State =
    | Created | ContextAssembling | Planning | Deciding | Proposing | ApprovalPending | Authorizing
    | Mutating | Verifying | Reflecting | Replanning | Completed | Failed | Aborted
  {
    predicate IsTerminal() { Completed? || Failed? || Aborted? }
  }

  datatype StopReason =
    | Success | IterationBudgetExhausted | MutationBudgetExhausted | VerificationBudgetExhausted
    | PolicyRejected | AuthorizationFailed | ProviderFailed | VerificationFailed | Unrecoverable | UserAborted

  datatype EvidenceKind =
    | Plan | Decision | Proposal | Authorization | MutationReceipt | Verification | Reflection | Memory
    | ReplanningOutcome

  /** A reference to an artifact; what stands for its digest is not looked at here. */
  datatype Evidence = Evidence(kind: EvidenceKind, referenceId: string, digest: Json, metadata: string)

  /** A Python datetime: with or without a timezone. */
  datatype Timestamp = Naive(ticks: int) | Aware(ticks: int)

  datatype Record = Record(
    sequence: int, iteration: int, fromState: State, toState: State,
    occurredAt: Timestamp, reason: Option<StopReason>, evidence: seq<Evidence>)

  function LegalTargets(s: State): set<State> {
    match s
    case Created => {ContextAssembling, Aborted}
    case ContextAssembling => {Planning, Failed}
    case Planning => {Deciding, Failed, Aborted}
    case Deciding => {Proposing, Failed}
    case Proposing => {ApprovalPending, Authorizing, Failed}
    case ApprovalPending => {Authorizing, Aborted}
    case Authorizing => {Mutating, Failed}
    case Mutating => {Verifying, Failed}
    case Verifying => {Completed, Reflecting, Failed}
    case Reflecting => {Replanning, Failed}
    case Replanning => {ContextAssembling, Failed}
    case Completed => {}
    case Failed => {}
    case Aborted => {}
  }

  datatype Budget = Budget(
    maxIterations: int, maxMutations: int, maxVerifications: int,
    iterationsUsed: int, mutationsUsed: int, verificationsUsed: int)
  {
    /** What the budget's own constructor enforces. */
    predicate Valid() {
      && maxIterations >= 1 && maxMutations >= 1 && maxVerifications >= 1
      && 0 <= iterationsUsed <= maxIterations
      && 0 <= mutationsUsed <= maxMutations
      && 0 <= verificationsUsed <= maxVerifications
    }

    function ConsumeIteration(): Result<Budget, LedgerError> {
      if maxIterations - iterationsUsed == 0 then Failure(IterationBudgetIsExhausted)
      else Result.Success(this.(iterationsUsed := iterationsUsed + 1))
    }

    function ConsumeMutation(): Result<Budget, LedgerError> {
      if maxMutations - mutationsUsed == 0 then Failure(MutationBudgetIsExhausted)
      else Result.Success(this.(mutationsUsed := mutationsUsed + 1))
    }

    function ConsumeVerification(): Result<Budget, LedgerError> {
      if maxVerifications - verificationsUsed == 0 then Failure(VerificationBudgetIsExhausted)
      else Result.Success(this.(verificationsUsed := verificationsUsed + 1))
    }
  }

  /** Every `ValueError` the ledger raises, one constructor per message. */
  datatype LedgerError =
    | IterationBudgetIsExhausted | MutationBudgetIsExhausted | VerificationBudgetIsExhausted
    | StopReasonOnNonterminal | TerminalNeedsStopReason | CompletedNeedsSuccess | AbortedNeedsUserAborted
    | FailedNeedsFailure
    | SequenceNotContiguous | OriginNotContiguous | IllegalTransitionInHistory | TransitionAfterTerminal
    | IterationNotLifecycle | StateNotFinal | IterationNotCurrent | IterationNotBudget | MutationsNotBudget
    | VerificationsNotBudget | EvidenceNotFlattened | StopReasonNotFinal | StopReasonNeedsTerminal
    | NonCreatedNeedsHistory | CreatedConsumesIterations | CreatedConsumesMutations
    | CreatedConsumesVerifications | CreatedHasEvidence | CreatedHasStopReason
  {
    /** Whether the message contains the word "budget". */
    predicate MentionsBudget() {
      || IterationBudgetIsExhausted? || MutationBudgetIsExhausted? || VerificationBudgetIsExhausted?
      || IterationNotBudget? || MutationsNotBudget? || VerificationsNotBudget?
      || CreatedConsumesIterations? || CreatedConsumesMutations? || CreatedConsumesVerifications?
    }

    /** Whether the message contains "stop_reason" or "stop reason". */
    predicate MentionsStopReason() {
      || StopReasonOnNonterminal? || TerminalNeedsStopReason? || CompletedNeedsSuccess?
      || AbortedNeedsUserAborted? || FailedNeedsFailure? || StopReasonNotFinal? || StopReasonNeedsTerminal?
      || CreatedHasStopReason?
    }
  }

  /** The terminal reason contract shared by transitions and reconstruction. */
  function CheckStopReason(target: State, reason: Option<StopReason>): Option<LedgerError> {
    if !target.IsTerminal() && reason.Some? then Some(StopReasonOnNonterminal)
    else if !target.IsTerminal() then None
    else if reason.None? then Some(TerminalNeedsStopReason)
    else if target.Completed? && reason.value != StopReason.Success then Some(CompletedNeedsSuccess)
    else if target.Aborted? && reason.value != UserAborted then Some(AbortedNeedsUserAborted)
    else if target.Failed? && reason.value in {StopReason.Success, UserAborted} then Some(FailedNeedsFailure)
    else None
  }

  datatype Context = Context(
    executionId: string, runId: string, goal: string, state: State, iteration: int, budget: Budget,
    history: seq<Record>, evidence: seq<Evidence>, stopReason: Option<StopReason>, metadata: string)
  {
    predicate Named() { !IsBlank(executionId) && !IsBlank(runId) && !IsBlank(goal) }
  }

  /** What the validation loop carries from record to record. */
  datatype Scan = Scan(state: State, iteration: int, mutations: int, verifications: int, evidence: seq<Evidence>)

  const START_SCAN := Scan(Created, 0, 0, 0, [])

  /** One turn of the validation loop. */
  function ScanRecord(s: Scan, expectedSequence: int, r: Record): Result<Scan, LedgerError> {
    var iteration := if r.toState.ContextAssembling? then s.iteration + 1 else s.iteration;
    var reasonError := CheckStopReason(r.toState, r.reason);
    if r.sequence != expectedSequence then Failure(SequenceNotContiguous)
    else if r.fromState != s.state then Failure(OriginNotContiguous)
    else if r.toState !in LegalTargets(r.fromState) then Failure(IllegalTransitionInHistory)
    else if s.state.IsTerminal() then Failure(TransitionAfterTerminal)
    else if r.iteration != iteration then Failure(IterationNotLifecycle)
    else if reasonError.Some? then Failure(reasonError.value)
    else Result.Success(Scan(
        r.toState, iteration,
        s.mutations + if r.toState.Mutating? then 1 else 0,
        s.verifications + if r.toState.Verifying? then 1 else 0,
        s.evidence + r.evidence))
  }

  /** The loop's verdict on a history, first error first. */
  function ScanHistory(history: seq<Record>): Result<Scan, LedgerError> {
    if history == [] then Result.Success(START_SCAN)
    else
      var front, last := history[..|history| - 1], history[|history| - 1];
      var s := ScanHistory(front);
      if s.Failure? then s else ScanRecord(s.value, |history|, last)
  }

  /** The checks after the loop: the ledger's totals against the context's fields. */
  function CheckTotals(c: Context, s: Scan): Option<LedgerError>
    requires c.history != []
  {
    if s.state != c.state then Some(StateNotFinal)
    else if s.iteration != c.iteration then Some(IterationNotCurrent)
    else if c.iteration != c.budget.iterationsUsed then Some(IterationNotBudget)
    else if s.mutations != c.budget.mutationsUsed then Some(MutationsNotBudget)
    else if s.verifications != c.budget.verificationsUsed then Some(VerificationsNotBudget)
    else if s.evidence != c.evidence then Some(EvidenceNotFlattened)
    else if c.state.IsTerminal() then
      if c.stopReason != c.history[|c.history| - 1].reason then Some(StopReasonNotFinal) else None
    else if c.stopReason.Some? then Some(StopReasonNeedsTerminal)
    else None
  }

  function CheckInitial(c: Context): Option<LedgerError> {
    if !c.state.Created? then Some(NonCreatedNeedsHistory)
    else if c.iteration != 0 || c.budget.iterationsUsed != 0 then Some(CreatedConsumesIterations)
    else if c.budget.mutationsUsed != 0 then Some(CreatedConsumesMutations)
    else if c.budget.verificationsUsed != 0 then Some(CreatedConsumesVerifications)
    else if c.evidence != [] then Some(CreatedHasEvidence)
    else if c.stopReason.Some? then Some(CreatedHasStopReason)
    else None
  }

  function HistoryError(c: Context): Option<LedgerError> {
    if c.history == [] then CheckInitial(c) else
      var s := ScanHistory(c.history);
      if s.Failure? then Some(s.error) else CheckTotals(c, s.value)
  }

  /** A context its own constructor accepts. */
  predicate Valid(c: Context) { c.Named() && c.budget.Valid() && HistoryError(c).None? }

  lemma {:induction false} ScanStopsAtFirstError(history: seq<Record>, i: nat)
    requires i <= |history| && ScanHistory(history[..i]).Failure?
    ensures ScanHistory(history) == ScanHistory(history[..i])
    decreases |history|
  {
    if i == |history| {
      assert history[..i] == history;
    } else {
      assert history[..|history| - 1][..i] == history[..i];
      ScanStopsAtFirstError(history[..|history| - 1], i);
    }
  }

  /** Where the scan stands after the first `i` records. */
  function ScanBefore(c: Context, i: nat): Result<Scan, LedgerError>
    requires i <= |c.history|
  {
    ScanHistory(c.history[..i])
  }

  /** The scan of a history follows the loop, turn by turn, and ends at the first error. */
  lemma ScanTurn(c: Context, i: nat)
    requires i < |c.history| && ScanBefore(c, i).Success?
    ensures var turn := ScanRecord(ScanBefore(c, i).value, i + 1, c.history[i]);
            && ScanBefore(c, i + 1) == turn
            && (turn.Failure? ==> HistoryError(c) == Some(turn.error))
  {
    assert c.history[..i + 1][..i] == c.history[..i];
    if ScanHistory(c.history[..i + 1]).Failure? { ScanStopsAtFirstError(c.history, i + 1); }
  }

  /** The validation loop over running counters. */
  method ValidateHistory(c: Context) returns (error: Option<LedgerError>)
    ensures error == HistoryError(c)
  {
    if c.history == [] {
      return CheckInitial(c);
    }
    var expectedState, expectedIteration := Created, 0;
    var mutationEntries, verificationEntries := 0, 0;
    var ledgerEvidence: seq<Evidence> := [];
    assert ScanBefore(c, 0).Success? && c.history[..|c.history|] == c.history;
    assert ScanBefore(c, |c.history|).Success? ==> HistoryError(c) == CheckTotals(c, ScanBefore(c, |c.history|).value);
    hide HistoryError, ScanHistory, ScanBefore, LegalTargets, CheckStopReason, CheckTotals,
         CheckInitial, State.IsTerminal;
    for i := 0 to |c.history|
      invariant ScanBefore(c, i) ==
                Result.Success(
                  Scan(expectedState, expectedIteration, mutationEntries, verificationEntries, ledgerEvidence))
    {
      var record := c.history[i];
      ScanTurn(c, i);
      if record.sequence != i + 1 {
        return Some(SequenceNotContiguous);
      }
      if record.fromState != expectedState {
        return Some(OriginNotContiguous);
      }
      if record.toState !in LegalTargets(record.fromState) {
        return Some(IllegalTransitionInHistory);
      }
      if expectedState.IsTerminal() {
        return Some(TransitionAfterTerminal);
      }
      if record.toState.ContextAssembling? {
        expectedIteration := expectedIteration + 1;
      }
      if record.iteration != expectedIteration {
        return Some(IterationNotLifecycle);
      }
      var reasonError := CheckStopReason(record.toState, record.reason);
      if reasonError.Some? {
        return reasonError;
      }
      assert ScanBefore(c, i + 1) == Result.Success(Scan(
          record.toState, expectedIteration, mutationEntries + (if record.toState.Mutating? then 1 else 0),
          verificationEntries + (if record.toState.Verifying? then 1 else 0), ledgerEvidence + record.evidence));
      hide ScanRecord;
      if record.toState.Mutating? {
        mutationEntries := mutationEntries + 1;
      }
      if record.toState.Verifying? {
        verificationEntries := verificationEntries + 1;
      }
      ledgerEvidence := ledgerEvidence + record.evidence;
      expectedState := record.toState;
    }
    error := CheckTotals(
      c, Scan(expectedState, expectedIteration, mutationEntries, verificationEntries, ledgerEvidence));
  }

  datatype ErrorCode = IllegalTransition | BudgetExhausted | InvalidStopReason | InvalidTransitionInput

  datatype TransitionResult = Accepted(context: Context) | Rejected(context: Context, code: ErrorCode)

  function ErrorCodeOf(e: LedgerError): ErrorCode {
    if e.MentionsBudget() then BudgetExhausted
    else if e.MentionsStopReason() then InvalidStopReason
    else InvalidTransitionInput
  }

  /** A transition request; `now` is the clock reading of its record. */
  datatype Request = Request(target: State, evidence: seq<Evidence>, stopReason: Option<StopReason>, now: int)

  /** Budget consumption: the state really entered, the new budget and iteration, and the forced reason. */
  function Resolve(c: Context, target: State): (State, Budget, int, Option<StopReason>) {
    if target.ContextAssembling? then
      match c.budget.ConsumeIteration()
      case Success(b) => (target, b, b.iterationsUsed, None)
      case Failure(_) => (Failed, c.budget, c.iteration, Some(IterationBudgetExhausted))
    else if target.Mutating? then
      match c.budget.ConsumeMutation()
      case Success(b) => (target, b, c.iteration, None)
      case Failure(_) => (Failed, c.budget, c.iteration, Some(MutationBudgetExhausted))
    else if target.Verifying? then
      match c.budget.ConsumeVerification()
      case Success(b) => (target, b, c.iteration, None)
      case Failure(_) => (Failed, c.budget, c.iteration, Some(VerificationBudgetExhausted))
    else (target, c.budget, c.iteration, None)
  }

  /** Builds the next context; its constructor validates the longer history again. */
  function Advance(c: Context, r: Request): Result<Context, LedgerError> {
    var (target, budget, iteration, forced) := Resolve(c, r.target);
    var reason := if forced.Some? then forced else r.stopReason;
    var reasonError := CheckStopReason(target, reason);
    if reasonError.Some? then Failure(reasonError.value)
    else
      var record := Record(|c.history| + 1, iteration, c.state, target, Aware(r.now), reason, r.evidence);
      var next := c.(state := target, iteration := iteration, budget := budget, history := c.history + [record],
                     evidence := c.evidence + r.evidence, stopReason := reason);
      var historyError := HistoryError(next);
      if historyError.Some? then Failure(historyError.value) else Result.Success(next)
  }

  /** One transition attempt; the old context comes back on rejection. */
  function Transition(c: Context, r: Request): TransitionResult {
    if r.target !in LegalTargets(c.state) then Rejected(c, IllegalTransition)
    else
      match Advance(c, r)
      case Success(next) => Accepted(next)
      case Failure(e) => Rejected(c, ErrorCodeOf(e))
  }
}
