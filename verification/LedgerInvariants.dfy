/** What every reachable ledger keeps: counters in step, bounded length, and the shape of its history. */
module LedgerInvariants {
  import opened Ledger
  import opened LedgerRuns

  /** Records written in the current iteration on the longest way to a state. */
  function StepsDone(s: State): nat {
    match s
    case Created => 0
    case ContextAssembling => 1
    case Planning => 2
    case Deciding => 3
    case Proposing => 4
    case ApprovalPending => 5
    case Authorizing => 6
    case Mutating => 7
    case Verifying => 8
    case Reflecting => 9
    case Replanning => 10
    case _ => 11
  }

  /** How the counters and the ledger length relate in each state. */
  ghost predicate InStep(s: Scan, length: nat) {
    if s.state.Created? then
      s.iteration == s.mutations == s.verifications == 0 && length == 0
    else if s.state.IsTerminal() then
      && 0 <= s.verifications <= s.mutations <= s.iteration <= s.verifications + 1
      && length <= 10 * s.iteration + 1
      && (s.state.Completed? ==> s.iteration == s.mutations == s.verifications >= 1)
    else
      && s.iteration >= 1 && length <= 10 * (s.iteration - 1) + StepsDone(s.state)
      && s.mutations == (if StepsDone(s.state) >= 7 then s.iteration else s.iteration - 1)
      && s.verifications == (if StepsDone(s.state) >= 8 then s.iteration else s.iteration - 1)
  }

  lemma StepKeepsInStep(s: Scan, length: nat, sequence: int, r: Record)
    requires InStep(s, length) && ScanRecord(s, sequence, r).Success?
    ensures InStep(ScanRecord(s, sequence, r).value, length + 1)
  {
    assert r.toState in LegalTargets(s.state);
  }

  lemma {:induction false} ScansAreInStep(history: seq<Record>)
    requires ScanHistory(history).Success?
    ensures InStep(ScanHistory(history).value, |history|)
  {
    if history != [] {
      var front := history[..|history| - 1];
      ScansAreInStep(front);
      StepKeepsInStep(ScanHistory(front).value, |front|, |history|, history[|history| - 1]);
    }
  }

  /** The counters of a valid ledger never drift apart, and its length is bounded by its iterations. */
  lemma CountersStayInStep(c: Context)
    requires Valid(c)
    ensures 0 <= c.budget.verificationsUsed <= c.budget.mutationsUsed <= c.budget.iterationsUsed
    ensures c.budget.iterationsUsed <= c.budget.verificationsUsed + 1
    ensures |c.history| <= 10 * c.budget.iterationsUsed + 1
  {
    ScanMatchesFields(c);
    ScansAreInStep(c.history);
  }

  function StepsLeft(s: State): nat {
    if s.Created? then 1 else if s.IsTerminal() then 0 else 11 - StepsDone(s)
  }

  /** Falls on every accepted transition. */
  function Remaining(c: Context): int {
    10 * (c.budget.maxIterations - c.budget.iterationsUsed) + StepsLeft(c.state)
  }

  lemma TransitionsUseUpTheMeasure(c: Context, r: Request)
    requires Valid(c) && Transition(c, r).Accepted?
    ensures 0 <= Remaining(Transition(c, r).context) < Remaining(c)
  {
    ScanMatchesFields(c);
    AcceptanceIsExact(c, r);
    var next := Transition(c, r).context;
    ScanMatchesFields(next);
    assert StartOf(next).budget == StartOf(c).budget;
    IterationCount(c, r);
  }

  lemma IterationCount(c: Context, r: Request)
    requires Valid(c) && Transition(c, r).Accepted?
    ensures Transition(c, r).context.budget.iterationsUsed ==
            c.budget.iterationsUsed + if Entered(c, r.target).ContextAssembling? then 1 else 0
  {
    hide HistoryError, LegalTargets, CheckStopReason;
  }

  /** No run is longer than ten steps an iteration and one. */
  lemma {:induction false} RunsAreBounded(start: Context, requests: seq<Request>)
    requires Initial(start) && Run(start, requests).Some?
    ensures |requests| + Remaining(Run(start, requests).value) <= 10 * start.budget.maxIterations + 1
    ensures Valid(Run(start, requests).value) && Remaining(Run(start, requests).value) >= 0
  {
    if requests != [] {
      var front, last := requests[..|requests| - 1], requests[|requests| - 1];
      RunsAreBounded(start, front);
      TransitionsUseUpTheMeasure(Run(start, front).value, last);
      AcceptanceIsExact(Run(start, front).value, last);
    }
  }

  /** Mutating entries carry strictly growing iterations, so no two share one. */
  lemma {:induction false} OneMutationPerIteration(history: seq<Record>)
    requires ScanHistory(history).Success?
    ensures forall i :: 0 <= i < |history| && history[i].toState.Mutating? ==>
              1 <= history[i].iteration <= ScanHistory(history).value.mutations
    ensures forall i, j :: 0 <= i < j < |history| && history[i].toState.Mutating? && history[j].toState.Mutating? ==>
              history[i].iteration < history[j].iteration
  {
    if history != [] {
      var front, last := history[..|history| - 1], history[|history| - 1];
      OneMutationPerIteration(front);
      ScansAreInStep(history);
      forall i | 0 <= i < |front| && history[i].toState.Mutating?
        ensures 1 <= history[i].iteration <= ScanHistory(front).value.mutations
      {
        assert front[i] == history[i];
      }
      forall i, j | 0 <= i < j < |history| && history[i].toState.Mutating? && history[j].toState.Mutating?
        ensures history[i].iteration < history[j].iteration
      {
        if j < |front| { assert front[i].iteration < front[j].iteration; }
      }
    }
  }

  /** The only state a legal edge to `s` can leave, for the three states with one predecessor. */
  function OnlySource(s: State): State
    requires s.Completed? || s.Verifying? || s.Mutating?
  {
    if s.Completed? then Verifying else if s.Verifying? then Mutating else Authorizing
  }

  lemma OnlySourceIsOnly(from: State, s: State)
    requires s.Completed? || s.Verifying? || s.Mutating?
    requires s in LegalTargets(from)
    ensures from == OnlySource(s)
  {}

  /** Reading the last record of a scanned history backwards. */
  lemma LastRecordBackwards(history: seq<Record>, s: State)
    requires ScanHistory(history).Success? && ScanHistory(history).value.state == s
    requires s.Completed? || s.Verifying? || s.Mutating?
    ensures history != []
    ensures var front, last := history[..|history| - 1], history[|history| - 1];
            && last.toState == s && last.iteration == ScanHistory(history).value.iteration
            && ScanHistory(front).Success? && ScanHistory(front).value.state == OnlySource(s)
            && ScanHistory(front).value.iteration == ScanHistory(history).value.iteration
  {
    OnlySourceIsOnly(history[|history| - 1].fromState, s);
  }

  /** A completed ledger ends AUTHORIZING, MUTATING, VERIFYING, COMPLETED, all in one iteration. */
  lemma CompletedLedgersEndVerified(c: Context)
    requires Valid(c) && c.state.Completed?
    ensures var n := |c.history|;
            && n >= 4
            && c.history[n - 4].toState.Authorizing? && c.history[n - 3].toState.Mutating?
            && c.history[n - 2].toState.Verifying? && c.history[n - 1].toState.Completed?
            && c.history[n - 4].iteration == c.history[n - 3].iteration == c.history[n - 2].iteration
               == c.history[n - 1].iteration == c.iteration
  {
    ScanMatchesFields(c);
    var h := c.history;
    LastRecordBackwards(h, Completed);
    LastRecordBackwards(h[..|h| - 1], Verifying);
    assert h[..|h| - 1][..|h| - 2] == h[..|h| - 2];
    LastRecordBackwards(h[..|h| - 2], Mutating);
    assert h[..|h| - 2][..|h| - 3] == h[..|h| - 3];
    AuthorizingIsRecorded(h[..|h| - 3]);
  }

  lemma AuthorizingIsRecorded(history: seq<Record>)
    requires ScanHistory(history).Success? && ScanHistory(history).value.state.Authorizing?
    ensures history != [] && history[|history| - 1].toState.Authorizing?
    ensures history[|history| - 1].iteration == ScanHistory(history).value.iteration
  {}
}
