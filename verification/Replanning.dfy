/** The bounded replanning policy, and the capacity it promises to the next iteration. */
module ReplanningPolicy {
  import opened Ledger
  import opened LedgerRuns
  import opened LedgerInvariants
  import opened LedgerPaths

  datatype VerificationStatus = ChecksPassed | ChecksFailed | ChecksNotRun
  datatype ObjectiveStatus = ObjectiveSatisfied | ObjectiveNotSatisfied

  datatype Action = ContinueWithFreshDecision | Fail | Abort

  datatype ReasonCode =
    | EligibleVerificationFailure | SecondIterationVerificationFailure | IterationLimit
    | MutationCapacity | VerificationCapacity | TerminalContext | IneligibleVerification

  /** The policy's branch chain; its input type admits only contexts in the replanning state. */
  function Decide(c: Context, verification: VerificationStatus, objective: ObjectiveStatus):
    (outcome: (Action, ReasonCode))
    requires c.state.Replanning?
    ensures outcome.0.Fail? || outcome.0.ContinueWithFreshDecision?
    ensures outcome.1 != TerminalContext
  {
    if c.state.IsTerminal() then (Fail, TerminalContext)
    else if verification != ChecksFailed || objective != ObjectiveNotSatisfied then (Fail, IneligibleVerification)
    else if c.iteration >= 2 then (Fail, SecondIterationVerificationFailure)
    else if c.budget.maxIterations - c.budget.iterationsUsed < 1 then (Fail, IterationLimit)
    else if c.budget.maxMutations - c.budget.mutationsUsed < 1 then (Fail, MutationCapacity)
    else if c.budget.maxVerifications - c.budget.verificationsUsed < 1 then (Fail, VerificationCapacity)
    else (ContinueWithFreshDecision, EligibleVerificationFailure)
  }

  /** On real ledgers the chain comes down to: first iteration, failed verification, every maximum at least two. */
  lemma ContinueExactly(c: Context, verification: VerificationStatus, objective: ObjectiveStatus)
    requires Valid(c) && c.state.Replanning?
    ensures Decide(c, verification, objective).0.ContinueWithFreshDecision? <==>
              && verification == ChecksFailed && objective == ObjectiveNotSatisfied && c.iteration == 1
              && c.budget.maxIterations >= 2 && c.budget.maxMutations >= 2 && c.budget.maxVerifications >= 2
  {
    ScanMatchesFields(c);
    ScansAreInStep(c.history);
  }

  /** The reason code of every outcome: the first of the conditions that fails, in this order. */
  lemma ReasonCodesExactly(c: Context, verification: VerificationStatus, objective: ObjectiveStatus)
    requires c.state.Replanning? && c.budget.Valid()
    ensures var code, b := Decide(c, verification, objective).1, c.budget;
            var eligible := verification == ChecksFailed && objective == ObjectiveNotSatisfied;
            && (code == IneligibleVerification <==> !eligible)
            && (code == SecondIterationVerificationFailure <==> eligible && c.iteration >= 2)
            && (code == IterationLimit <==> eligible && c.iteration < 2 && b.iterationsUsed == b.maxIterations)
            && (code == MutationCapacity <==>
                  && eligible && c.iteration < 2 && b.iterationsUsed < b.maxIterations
                  && b.mutationsUsed == b.maxMutations)
            && (code == VerificationCapacity <==>
                  && eligible && c.iteration < 2 && b.iterationsUsed < b.maxIterations
                  && b.mutationsUsed < b.maxMutations && b.verificationsUsed == b.maxVerifications)
            && (code == EligibleVerificationFailure <==>
                  Decide(c, verification, objective).0 == ContinueWithFreshDecision)
  {}

  lemma SameMaxima(c: Context, d: Context)
    requires StartOf(c) == StartOf(d)
    ensures c.budget.maxIterations == d.budget.maxIterations && c.budget.maxMutations == d.budget.maxMutations
    ensures c.budget.maxVerifications == d.budget.maxVerifications
  {
    assert StartOf(c).budget == StartOf(d).budget;
  }

  /** With maxima of two, nothing is exhausted before the second iteration has used its share. */
  lemma RoomInTheSecondIteration(d: Context, target: State)
    requires Valid(d) && target in LegalTargets(d.state)
    requires d.budget.maxIterations >= 2 && d.budget.maxMutations >= 2 && d.budget.maxVerifications >= 2
    requires d.iteration <= if target.ContextAssembling? then 1 else 2
    ensures !Exhausted(d.budget, target)
  {
    ScanMatchesFields(d);
    ScansAreInStep(d.history);
  }

  /**
   * After CONTINUE no entry of the next iteration is redirected to budget exhaustion: whatever accepted
   * requests come in between, re-entering context assembly, mutating and verifying finds capacity.
   */
  lemma ContinueLeavesCapacity(c: Context, verification: VerificationStatus, objective: ObjectiveStatus,
                               requests: seq<Request>, target: State)
    requires Valid(c) && c.state.Replanning?
    requires Decide(c, verification, objective).0.ContinueWithFreshDecision?
    requires Run(c, requests).Some? && target in LegalTargets(Run(c, requests).value.state)
    requires Run(c, requests).value.iteration <= c.iteration + if target.ContextAssembling? then 0 else 1
    ensures !Exhausted(Run(c, requests).value.budget, target)
  {
    RunKeepsValid(c, requests);
    ContinueExactly(c, verification, objective);
    SameMaxima(c, Run(c, requests).value);
    hide *;
    RoomInTheSecondIteration(Run(c, requests).value, target);
  }

  /** CONTINUE is never a dead end: the next iteration can be run through to COMPLETED. */
  lemma ContinueCanSucceed(c: Context, verification: VerificationStatus, objective: ObjectiveStatus, approval: bool)
    requires Valid(c) && c.state.Replanning?
    requires Decide(c, verification, objective).0.ContinueWithFreshDecision?
    ensures exists requests :: Run(c, requests).Some? && Run(c, requests).value.state.Completed?
              && Trace(Run(c, requests).value.history) == Trace(c.history) + SuccessPath(approval)
  {
    IterationIsOpen(c, approval);
  }

  /** Every step out of REPLANNING into a new iteration was preceded by a CONTINUE decision. */
  ghost predicate Governed(start: Context, requests: seq<Request>) {
    requests == [] ||
    var front, last := requests[..|requests| - 1], requests[|requests| - 1];
    && Governed(start, front)
    && (Run(start, front).Some? && Run(start, front).value.state.Replanning? && last.target.ContextAssembling? ==>
          exists v, o :: Decide(Run(start, front).value, v, o).0.ContinueWithFreshDecision?)
  }

  /** A governed run performs at most two iterations, whatever the configured maximum. */
  lemma {:induction false} GovernedRunsTakeTwoIterations(start: Context, requests: seq<Request>)
    requires Initial(start) && Governed(start, requests) && Run(start, requests).Some?
    ensures Valid(Run(start, requests).value) && Run(start, requests).value.iteration <= 2
  {
    if requests == [] {
      ScanMatchesFields(start);
    } else {
      var front, last := requests[..|requests| - 1], requests[|requests| - 1];
      GovernedRunsTakeTwoIterations(start, front);
      var before := Run(start, front).value;
      AcceptanceIsExact(before, last);
      IterationCount(before, last);
      var next := Run(start, requests).value;
      ScanMatchesFields(before);
      ScanMatchesFields(next);
      if next.iteration > before.iteration {
        OnlyTwoWaysIn(before.state);
        if before.state.Replanning? {
          var v, o :| Decide(before, v, o).0.ContinueWithFreshDecision?;
          ContinueExactly(before, v, o);
        } else {
          CreatedOnlyAtStart(before.history);
        }
      }
    }
  }

  lemma OnlyTwoWaysIn(s: State)
    requires ContextAssembling in LegalTargets(s)
    ensures s.Created? || s.Replanning?
  {}
}
