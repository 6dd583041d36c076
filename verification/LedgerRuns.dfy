/** Runs of the ledger: what `transition` accepts, and that validated contexts are the reachable ones. */
module LedgerRuns {
  import opened Wrappers
  import opened Values
  import opened Ledger

  predicate Exhausted(b: Budget, target: State) {
    || (target.ContextAssembling? && b.iterationsUsed == b.maxIterations)
    || (target.Mutating? && b.mutationsUsed == b.maxMutations)
    || (target.Verifying? && b.verificationsUsed == b.maxVerifications)
  }

  predicate ReasonFits(target: State, reason: Option<StopReason>) { CheckStopReason(target, reason).None? }

  lemma ScanAppend(history: seq<Record>, r: Record)
    requires ScanHistory(history).Success?
    ensures ScanHistory(history + [r]) == ScanRecord(ScanHistory(history).value, |history| + 1, r)
  {
    assert (history + [r])[..|history|] == history;
  }

  /** On a valid context the scan of the history is what the fields say. */
  lemma ScanMatchesFields(c: Context)
    requires Valid(c)
    ensures ScanHistory(c.history) ==
            Result.Success(Scan(c.state, c.iteration, c.budget.mutationsUsed, c.budget.verificationsUsed, c.evidence))
    ensures c.iteration == c.budget.iterationsUsed
    ensures c.stopReason.Some? ==> c.state.IsTerminal()
  {}

  /** The state a legal request really enters. */
  function Entered(c: Context, target: State): State { if Exhausted(c.budget, target) then Failed else target }

  /** The redirect to Failed lands on a legal edge, and never happens at the start. */
  lemma RedirectIsLegal(c: Context, target: State)
    requires Valid(c) && target in LegalTargets(c.state)
    ensures Entered(c, target) in LegalTargets(c.state)
    ensures c.state.Created? ==> !Exhausted(c.budget, target)
  {
    ScanMatchesFields(c);
    if c.state.Created? { CreatedOnlyAtStart(c.history); }
  }

  lemma {:induction false} CreatedOnlyAtStart(history: seq<Record>)
    requires ScanHistory(history).Success? && ScanHistory(history).value.state.Created?
    ensures history == []
  {}

  /** The record a legal request would append. */
  function NextRecord(c: Context, r: Request): Record {
    var (target, budget, iteration, forced) := Resolve(c, r.target);
    Record(|c.history| + 1, iteration, c.state, target, Aware(r.now),
           if forced.Some? then forced else r.stopReason, r.evidence)
  }

  lemma NextRecordScans(c: Context, r: Request)
    requires Valid(c) && r.target in LegalTargets(c.state)
    requires Exhausted(c.budget, r.target) || ReasonFits(r.target, r.stopReason)
    ensures NextRecord(c, r).toState == Entered(c, r.target)
    ensures ReasonFits(NextRecord(c, r).toState, NextRecord(c, r).reason)
    ensures var s := ScanHistory(c.history).value;
            ScanRecord(s, |c.history| + 1, NextRecord(c, r)).Success?
  {
    ScanMatchesFields(c);
    RedirectIsLegal(c, r.target);
  }

  /** Re-validation inside the step never objects: the longer ledger is valid whenever the reason fits. */
  lemma NextIsValid(c: Context, r: Request)
    requires Valid(c) && r.target in LegalTargets(c.state)
    requires Exhausted(c.budget, r.target) || ReasonFits(r.target, r.stopReason)
    ensures Advance(c, r).Success? && Valid(Advance(c, r).value)
    ensures Advance(c, r).value.history == c.history + [NextRecord(c, r)]
    ensures Advance(c, r).value.state == Entered(c, r.target)
  {
    ScanMatchesFields(c);
    RedirectIsLegal(c, r.target);
    NextRecordScans(c, r);
    ScanAppend(c.history, NextRecord(c, r));
    hide ScanHistory, LegalTargets;
  }

  /** The created context a run to `c` starts from: same identity, same maxima, nothing used. */
  function StartOf(c: Context): Context {
    c.(state := Created, iteration := 0, history := [], evidence := [], stopReason := None,
       budget := c.budget.(iterationsUsed := 0, mutationsUsed := 0, verificationsUsed := 0))
  }

  /** Exactly when a legal request is accepted, and what the new context is. */
  lemma AcceptanceIsExact(c: Context, r: Request)
    requires Valid(c) && r.target in LegalTargets(c.state)
    ensures Transition(c, r).Accepted? <==> Exhausted(c.budget, r.target) || ReasonFits(r.target, r.stopReason)
    ensures Transition(c, r).Accepted? ==>
              var next := Transition(c, r).context;
              && Valid(next)
              && next.state == Entered(c, r.target)
              && next.history == c.history + [NextRecord(c, r)]
              && StartOf(next) == StartOf(c)
  {
    if Exhausted(c.budget, r.target) || ReasonFits(r.target, r.stopReason) { NextIsValid(c, r); }
  }

  lemma ReasonErrorsMentionStopReason(target: State, reason: Option<StopReason>)
    requires !ReasonFits(target, reason)
    ensures ErrorCodeOf(CheckStopReason(target, reason).value) == InvalidStopReason
  {}

  /** A rejection is an illegal edge or an unfit stop reason; budget exhaustion is never reported. */
  lemma RejectionCodes(c: Context, r: Request)
    requires Valid(c) && Transition(c, r).Rejected?
    ensures Transition(c, r).context == c
    ensures Transition(c, r).code == if r.target in LegalTargets(c.state) then InvalidStopReason else IllegalTransition
  {
    if r.target in LegalTargets(c.state) {
      AcceptanceIsExact(c, r);
      ReasonErrorsMentionStopReason(r.target, r.stopReason);
      hide LegalTargets, CheckStopReason, HistoryError, ErrorCodeOf;
    }
  }

  predicate Initial(c: Context) { c.history == [] && Valid(c) }

  /** Applies requests in order; None as soon as one is rejected. */
  function Run(c: Context, requests: seq<Request>): Option<Context> {
    if requests == [] then Some(c) else
      var before := Run(c, requests[..|requests| - 1]);
      if before.None? then None else
        match Transition(before.value, requests[|requests| - 1])
        case Accepted(next) => Some(next)
        case Rejected(_, _) => None
  }

  ghost predicate Reachable(c: Context) {
    exists start, requests :: Initial(start) && Run(start, requests) == Some(c)
  }

  predicate StampedAware(history: seq<Record>) { forall r :: r in history ==> r.occurredAt.Aware? }

  /** Runs stay valid, keep what identifies the ledger, and add one record a step, stamped by the clock. */
  lemma {:induction false} RunKeepsValid(start: Context, requests: seq<Request>)
    requires Valid(start) && Run(start, requests).Some?
    ensures Valid(Run(start, requests).value) && StartOf(Run(start, requests).value) == StartOf(start)
    ensures |Run(start, requests).value.history| == |start.history| + |requests|
    ensures start.history <= Run(start, requests).value.history
    ensures StampedAware(Run(start, requests).value.history[|start.history|..])
  {
    if requests != [] {
      RunKeepsValid(start, requests[..|requests| - 1]);
      var c := Run(start, requests[..|requests| - 1]).value;
      AcceptanceIsExact(c, requests[|requests| - 1]);
      hide Transition, LegalTargets, HistoryError, StartOf;
    }
  }

  /** The context before the last record. */
  function Previous(c: Context): Context
    requires c.history != [] && ScanHistory(c.history[..|c.history| - 1]).Success?
  {
    var front := c.history[..|c.history| - 1];
    var s := ScanHistory(front).value;
    c.(state := s.state, iteration := s.iteration, history := front, evidence := s.evidence, stopReason := None,
       budget := c.budget.(iterationsUsed := s.iteration,
                             mutationsUsed := s.mutations, verificationsUsed := s.verifications))
  }

  function RequestOf(r: Record): Request { Request(r.toState, r.evidence, r.reason, r.occurredAt.ticks) }

  function RequestsOf(history: seq<Record>): seq<Request> {
    seq(|history|, i requires 0 <= i < |history| => RequestOf(history[i]))
  }

  lemma {:induction false} CountsAreNonnegative(history: seq<Record>)
    requires ScanHistory(history).Success?
    ensures var s := ScanHistory(history).value; s.iteration >= 0 && s.mutations >= 0 && s.verifications >= 0
  {
    if history != [] { CountsAreNonnegative(history[..|history| - 1]); }
  }

  lemma PreviousIsValid(c: Context)
    requires Valid(c) && c.history != []
    ensures ScanHistory(c.history[..|c.history| - 1]).Success? && Valid(Previous(c))
  {
    ScanMatchesFields(c);
    var front := c.history[..|c.history| - 1];
    CountsAreNonnegative(front);
    if front == [] { assert ScanHistory(front).value == START_SCAN; }
  }

  /** The last record is the one the undone context would append, without any redirect. */
  lemma LastRecordIsNext(c: Context)
    requires Valid(c) && c.history != [] && StampedAware(c.history)
    requires ScanHistory(c.history[..|c.history| - 1]).Success?
    ensures var last := c.history[|c.history| - 1];
            && last.toState in LegalTargets(Previous(c).state)
            && !Exhausted(Previous(c).budget, last.toState)
            && ReasonFits(last.toState, last.reason)
            && NextRecord(Previous(c), RequestOf(last)) == last
  {}

  /** Dropping the last record of a valid ledger leaves a valid ledger, and one transition restores it. */
  lemma UndoLastRecord(c: Context)
    requires Valid(c) && c.history != [] && StampedAware(c.history)
    ensures ScanHistory(c.history[..|c.history| - 1]).Success?
    ensures Valid(Previous(c)) && StampedAware(Previous(c).history)
    ensures Transition(Previous(c), RequestOf(c.history[|c.history| - 1])) == Accepted(c)
  {
    var front, last := c.history[..|c.history| - 1], c.history[|c.history| - 1];
    PreviousIsValid(c);
    LastRecordIsNext(c);
    NextIsValid(Previous(c), RequestOf(last));
    var next := Advance(Previous(c), RequestOf(last)).value;
    assert c.history == front + [last] == next.history;
    SameHistorySameContext(c, next);
  }

  /** The validator leaves no freedom beyond the history and the fields a run never changes. */
  lemma SameHistorySameContext(c: Context, d: Context)
    requires Valid(c) && Valid(d) && c.history == d.history
    requires c.(state := d.state, iteration := d.iteration, budget := d.budget,
               evidence := d.evidence, stopReason := d.stopReason) == d
    requires c.budget.maxIterations == d.budget.maxIterations && c.budget.maxMutations == d.budget.maxMutations
    requires c.budget.maxVerifications == d.budget.maxVerifications
    ensures c == d
  {
    ScanMatchesFields(c);
    ScanMatchesFields(d);
  }

  /** Replaying a valid history record by record is accepted throughout and rebuilds the context. */
  lemma {:induction false} ReplayRebuilds(c: Context)
    requires Valid(c) && StampedAware(c.history)
    ensures Initial(StartOf(c)) && Run(StartOf(c), RequestsOf(c.history)) == Some(c)
    decreases |c.history|
  {
    if c.history != [] {
      var front, last := c.history[..|c.history| - 1], c.history[|c.history| - 1];
      UndoLastRecord(c);
      ReplayRebuilds(Previous(c));
      assert StartOf(Previous(c)) == StartOf(c);
      assert RequestsOf(c.history)[..|c.history| - 1] == RequestsOf(front);
    } else {
      assert StartOf(c) == c;
    }
  }

  /** Validated is reachable. Only records the source's clock cannot stamp (naive datetimes) are set apart. */
  lemma ValidatedIsReachable(c: Context)
    ensures Valid(c) && StampedAware(c.history) <==> Reachable(c)
  {
    if Valid(c) && StampedAware(c.history) { ReplayRebuilds(c); }
    if Reachable(c) {
      var start, requests :| Initial(start) && Run(start, requests) == Some(c);
      RunKeepsValid(start, requests);
      assert c.history[|start.history|..] == c.history;
    }
  }

  /** The difference is real: one record stamped without a timezone validates, though no run writes it. */
  lemma NaiveRecordsValidate(executionId: string, runId: string, goal: string)
    requires !IsBlank(executionId) && !IsBlank(runId) && !IsBlank(goal)
    ensures var record := Record(1, 1, Created, ContextAssembling, Naive(0), None, []);
            var c := Context(executionId, runId, goal, ContextAssembling, 1, Budget(1, 1, 1, 1, 0, 0),
                             [record], [], None, "");
            Valid(c) && !Reachable(c)
  {
    var record := Record(1, 1, Created, ContextAssembling, Naive(0), None, []);
    var c := Context(executionId, runId, goal, ContextAssembling, 1, Budget(1, 1, 1, 1, 0, 0), [record], [], None, "");
    assert [record][..0] == [] && ScanHistory([]) == Result.Success(START_SCAN);
    assert ScanHistory([record]) == ScanRecord(START_SCAN, 1, record);
    assert record in c.history;
    ValidatedIsReachable(c);
  }
}
