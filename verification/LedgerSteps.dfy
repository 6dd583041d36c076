/** One transition, field by field, and what the ledger's errors say. */
module LedgerSteps {
  import opened Wrappers
  import opened Ledger
  import opened LedgerRuns

  /** The lifecycle forwards, without the ways out. */
  predicate Forward(s: State, t: State) {
    || (s.Created? && t.ContextAssembling?) || (s.ContextAssembling? && t.Planning?) || (s.Planning? && t.Deciding?)
    || (s.Deciding? && t.Proposing?) || (s.Proposing? && (t.ApprovalPending? || t.Authorizing?))
    || (s.ApprovalPending? && t.Authorizing?) || (s.Authorizing? && t.Mutating?) || (s.Mutating? && t.Verifying?)
    || (s.Verifying? && (t.Completed? || t.Reflecting?)) || (s.Reflecting? && t.Replanning?)
    || (s.Replanning? && t.ContextAssembling?)
  }

  /**
   * Legal edges go forward, or out: any running state may fail, save for the two that wait on a person, and those
   * two and planning may be aborted.
   */
  lemma LegalEdgesExactly(s: State, t: State)
    ensures t in LegalTargets(s) <==>
              || Forward(s, t)
              || (t.Failed? && !s.IsTerminal() && !s.Created? && !s.ApprovalPending?)
              || (t.Aborted? && (s.Created? || s.Planning? || s.ApprovalPending?))
  {}

  /** The reasons each state accepts. */
  lemma ReasonsExactly(target: State, reason: Option<StopReason>)
    ensures ReasonFits(target, reason) <==>
              match target
              case Completed => reason == Some(StopReason.Success)
              case Aborted => reason == Some(UserAborted)
              case Failed => reason.Some? && reason.value != StopReason.Success && reason.value != UserAborted
              case _ => reason == None
  {}

  /** A budget is valid when every maximum is at least one and what is used stays between none and it. */
  lemma BudgetsExactly(b: Budget)
    ensures b.Valid() <==>
              && 1 <= b.maxIterations && 1 <= b.maxMutations && 1 <= b.maxVerifications
              && !(b.iterationsUsed < 0 || b.iterationsUsed > b.maxIterations)
              && !(b.mutationsUsed < 0 || b.mutationsUsed > b.maxMutations)
              && !(b.verificationsUsed < 0 || b.verificationsUsed > b.maxVerifications)
  {}

  /** The state entered and the reason recorded, by what is used up. */
  function Landing(b: Budget, r: Request): (State, Option<StopReason>) {
    if r.target.ContextAssembling? && b.iterationsUsed == b.maxIterations then (Failed, Some(IterationBudgetExhausted))
    else if r.target.Mutating? && b.mutationsUsed == b.maxMutations then (Failed, Some(MutationBudgetExhausted))
    else if r.target.Verifying? && b.verificationsUsed == b.maxVerifications then
      (Failed, Some(VerificationBudgetExhausted))
    else (r.target, r.stopReason)
  }

  /** The budget after entering a state. */
  function Spent(b: Budget, state: State): Budget {
    b.(iterationsUsed := b.iterationsUsed + (if state.ContextAssembling? then 1 else 0),
       mutationsUsed := b.mutationsUsed + (if state.Mutating? then 1 else 0),
       verificationsUsed := b.verificationsUsed + if state.Verifying? then 1 else 0)
  }

  lemma ResolvesTo(c: Context, r: Request)
    requires c.iteration == c.budget.iterationsUsed
    ensures var (state, reason) := Landing(c.budget, r);
            var (target, budget, iteration, forced) := Resolve(c, r.target);
            && target == state && budget == Spent(c.budget, state)
            && iteration == c.iteration + (if state.ContextAssembling? then 1 else 0)
            && (if forced.Some? then forced else r.stopReason) == reason
  {}

  /** The whole context and the whole record an accepted request leaves. */
  lemma StepExactly(c: Context, r: Request)
    requires Valid(c) && Transition(c, r).Accepted?
    ensures var (state, reason) := Landing(c.budget, r);
            var iteration := c.iteration + if state.ContextAssembling? then 1 else 0;
            Transition(c, r).context == c.(
              state := state, iteration := iteration, budget := Spent(c.budget, state),
              evidence := c.evidence + r.evidence, stopReason := reason,
              history := c.history +
                [Record(|c.history| + 1, iteration, c.state, state, Aware(r.now), reason, r.evidence)])
  {
    hide *;
    ScanMatchesFields(c);
    ResolvesTo(c, r);
    AdvancesTo(c, r);
  }

  lemma AdvancesTo(c: Context, r: Request)
    requires Transition(c, r).Accepted?
    ensures var (target, budget, iteration, forced) := Resolve(c, r.target);
            var reason := if forced.Some? then forced else r.stopReason;
            Transition(c, r).context == c.(
              state := target, iteration := iteration, budget := budget,
              evidence := c.evidence + r.evidence, stopReason := reason,
              history := c.history +
                [Record(|c.history| + 1, iteration, c.state, target, Aware(r.now), reason, r.evidence)])
  {
    hide HistoryError, LegalTargets, CheckStopReason, Resolve;
  }

  function LastReason(c: Context): Option<StopReason> {
    if c.history == [] then None else c.history[|c.history| - 1].reason
  }

  /** An exhausted budget ends the ledger under its own name; otherwise the reason is the requested one. */
  lemma ExhaustionIsNamed(c: Context, r: Request)
    requires Valid(c) && r.target in LegalTargets(c.state)
    ensures var next, b := Transition(c, r).context, c.budget;
            && (r.target.ContextAssembling? && b.iterationsUsed == b.maxIterations ==>
                  Transition(c, r).Accepted? && next.state.Failed?
                  && next.stopReason == LastReason(next) == Some(IterationBudgetExhausted))
            && (r.target.Mutating? && b.mutationsUsed == b.maxMutations ==>
                  Transition(c, r).Accepted? && next.state.Failed?
                  && next.stopReason == LastReason(next) == Some(MutationBudgetExhausted))
            && (r.target.Verifying? && b.verificationsUsed == b.maxVerifications ==>
                  Transition(c, r).Accepted? && next.state.Failed?
                  && next.stopReason == LastReason(next) == Some(VerificationBudgetExhausted))
            && (Transition(c, r).Accepted? && !Exhausted(b, r.target) ==>
                  next.state == r.target && next.stopReason == LastReason(next) == r.stopReason)
  {
    AcceptanceIsExact(c, r);
    if Transition(c, r).Accepted? { StepExactly(c, r); }
    hide Transition, LegalTargets, HistoryError;
  }

  /** What the scan holds against a record. */
  predicate Blames(e: LedgerError, s: Scan, expectedSequence: int, r: Record) {
    match e
    case SequenceNotContiguous => r.sequence != expectedSequence
    case OriginNotContiguous => r.fromState != s.state
    case IllegalTransitionInHistory => r.toState !in LegalTargets(r.fromState)
    case TransitionAfterTerminal => s.state.IsTerminal()
    case IterationNotLifecycle => r.iteration != s.iteration + if r.toState.ContextAssembling? then 1 else 0
    case StopReasonOnNonterminal => !r.toState.IsTerminal() && r.reason.Some?
    case TerminalNeedsStopReason => r.toState.IsTerminal() && r.reason.None?
    case CompletedNeedsSuccess => r.toState.Completed? && r.reason != Some(StopReason.Success)
    case AbortedNeedsUserAborted => r.toState.Aborted? && r.reason != Some(UserAborted)
    case FailedNeedsFailure =>
      r.toState.Failed? && (r.reason == Some(StopReason.Success) || r.reason == Some(UserAborted))
    case _ => false
  }

  /** A record is refused exactly when something can be held against it, and the error says something true of it. */
  lemma RecordErrorsAreTrue(s: Scan, expectedSequence: int, r: Record)
    ensures ScanRecord(s, expectedSequence, r).Failure? <==> exists e :: Blames(e, s, expectedSequence, r)
    ensures var scanned := ScanRecord(s, expectedSequence, r);
            scanned.Failure? ==> Blames(scanned.error, s, expectedSequence, r)
  {
    var scanned := ScanRecord(s, expectedSequence, r);
    if scanned.Failure? { assert Blames(scanned.error, s, expectedSequence, r); }
  }

  /** What the totals hold against a context whose history scanned to `s`. */
  predicate BlamesTotals(e: LedgerError, c: Context, s: Scan)
    requires c.history != []
  {
    match e
    case StateNotFinal => s.state != c.state
    case IterationNotCurrent => s.iteration != c.iteration
    case IterationNotBudget => c.iteration != c.budget.iterationsUsed
    case MutationsNotBudget => s.mutations != c.budget.mutationsUsed
    case VerificationsNotBudget => s.verifications != c.budget.verificationsUsed
    case EvidenceNotFlattened => s.evidence != c.evidence
    case StopReasonNotFinal => c.state.IsTerminal() && c.stopReason != c.history[|c.history| - 1].reason
    case StopReasonNeedsTerminal => !c.state.IsTerminal() && c.stopReason.Some?
    case _ => false
  }

  lemma TotalErrorsAreTrue(c: Context, s: Scan)
    requires c.history != []
    ensures CheckTotals(c, s).Some? <==> exists e :: BlamesTotals(e, c, s)
    ensures CheckTotals(c, s).Some? ==> BlamesTotals(CheckTotals(c, s).value, c, s)
  {
    var checked := CheckTotals(c, s);
    if checked.Some? { assert BlamesTotals(checked.value, c, s); }
  }

  /** What is held against a context without history. */
  predicate BlamesStart(e: LedgerError, c: Context) {
    match e
    case NonCreatedNeedsHistory => !c.state.Created?
    case CreatedConsumesIterations => c.iteration != 0 || c.budget.iterationsUsed != 0
    case CreatedConsumesMutations => c.budget.mutationsUsed != 0
    case CreatedConsumesVerifications => c.budget.verificationsUsed != 0
    case CreatedHasEvidence => c.evidence != []
    case CreatedHasStopReason => c.stopReason.Some?
    case _ => false
  }

  lemma StartErrorsAreTrue(c: Context)
    ensures CheckInitial(c).Some? <==> exists e :: BlamesStart(e, c)
    ensures CheckInitial(c).Some? ==> BlamesStart(CheckInitial(c).value, c)
  {
    var checked := CheckInitial(c);
    if checked.Some? { assert BlamesStart(checked.value, c); }
  }
}
