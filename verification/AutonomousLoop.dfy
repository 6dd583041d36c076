/** The autonomous loop: iterate, reflect, decide, recover; and how it ends under the default engines. */
module AutonomousLoop {
  import opened Wrappers

  datatype RunOutcome = RunSucceeded | RunFailed | RunCancelled | RunPartial

  /** One run and its reflection, as far as the loop looks at them. */
  datatype Report = Report(
    outcome: RunOutcome, planSignature: string, reviewScore: int,
    hasCriticalFinding: bool, planningDecision: Option<string>)

  datatype Action = Continue | Stop | Replan | Escalate
  datatype RecoveryPolicy = Retry | DifferentWorker | DifferentCapability | DifferentStrategy | Abort
  datatype RecoveryAction = RetryPlan | ExcludeWorker | ChangeCapability | ChangeStrategy | AbortLoop
  datatype Decision = Decision(continueLoop: bool, action: Action, requiresHuman: bool, recovery: RecoveryPolicy)

  datatype LoopState = Completed | Failed | Aborted | WaitingApproval
  datatype LoopOutcome = Finished | LoopFailed | Waiting

  datatype Iteration = Iteration(number: nat, success: bool, planningDecision: Option<string>)
  datatype Metrics = Metrics(total: nat, successful: nat, failed: nat, replans: nat)
  datatype LoopResult = LoopResult(
    state: LoopState, outcome: LoopOutcome, iterations: seq<Iteration>, finalDecision: Decision, metrics: Metrics)

  type Completion = (Report, nat, nat) -> Decision
  type Recovery = (Report, Decision) -> RecoveryAction

  /** The default completion engine. */
  function Evaluate(r: Report, iteration: nat, maxIterations: nat): Decision {
    if r.outcome.RunFailed? then
      if iteration >= maxIterations then Decision(false, Escalate, false, Abort)
      else Decision(true, Replan, false, Retry)
    else if r.reviewScore < 80 then
      if iteration >= maxIterations then Decision(false, Escalate, false, Retry)
      else Decision(true, Continue, false, DifferentStrategy)
    else if r.hasCriticalFinding then Decision(false, Escalate, false, Abort)
    else Decision(false, Stop, false, Retry)
  }

  /** The default recovery engine. */
  function Recover(r: Report, d: Decision): RecoveryAction {
    match d.recovery
    case Abort => AbortLoop
    case Retry => RetryPlan
    case DifferentWorker => ExcludeWorker
    case DifferentCapability => ChangeCapability
    case DifferentStrategy => ChangeStrategy
  }

  /** How the loop ends, and in which iteration. */
  datatype Ending = Ending(last: nat, kind: EndKind)
  datatype EndKind = Oscillated | Paused | RecoveryAborted | Decided | Exhausted

  /** The last four plans read A, B, A, B. */
  predicate OscillatesAt(runs: nat -> Report, k: nat) {
    k >= 4
    && runs(k).planSignature != runs(k - 1).planSignature
    && runs(k).planSignature == runs(k - 2).planSignature
    && runs(k - 1).planSignature == runs(k - 3).planSignature
  }

  /** Where a loop standing before iteration `k` ends. */
  function EndFrom(runs: nat -> Report, completion: Completion, recovery: Recovery, k: nat, maxIterations: nat): Ending
    decreases maxIterations + 1 - k
  {
    if k > maxIterations then Ending(maxIterations, Exhausted)
    else if OscillatesAt(runs, k) then Ending(k, Oscillated)
    else
      var d := completion(runs(k), k, maxIterations);
      if d.requiresHuman then Ending(k, Paused)
      else if d.action.Replan? && recovery(runs(k), d).AbortLoop? then Ending(k, RecoveryAborted)
      else if !d.continueLoop then Ending(k, Decided)
      else EndFrom(runs, completion, recovery, k + 1, maxIterations)
  }

  const OSCILLATION := Decision(false, Escalate, false, Abort)
  const EXHAUSTION := Decision(false, Escalate, false, Retry)

  function IterationsUpTo(runs: nat -> Report, n: nat): (iterations: seq<Iteration>)
    ensures |iterations| == n
  {
    if n == 0 then [] else
      IterationsUpTo(runs, n - 1) + [Iteration(n, runs(n).outcome.RunSucceeded?, runs(n).planningDecision)]
  }

  function Count(iterations: seq<Iteration>, p: Iteration -> bool): nat {
    if iterations == [] then 0 else
      Count(iterations[..|iterations| - 1], p) + if p(iterations[|iterations| - 1]) then 1 else 0
  }

  predicate Succeeded(i: Iteration) { i.success }
  predicate NotSucceeded(i: Iteration) { !i.success }
  predicate Replanned(i: Iteration) { i.planningDecision.Some? }

  lemma {:induction false} CountsSplit(iterations: seq<Iteration>)
    ensures Count(iterations, Succeeded) + Count(iterations, NotSucceeded) == |iterations|
  {
    if iterations != [] { CountsSplit(iterations[..|iterations| - 1]); }
  }

  function CalculateMetrics(iterations: seq<Iteration>): Metrics {
    Metrics(|iterations|, Count(iterations, Succeeded), Count(iterations, NotSucceeded),
            Count(iterations, Replanned))
  }

  /** The result belonging to an ending. */
  function ResultOf(runs: nat -> Report, completion: Completion, maxIterations: nat, e: Ending): LoopResult {
    var iterations := IterationsUpTo(runs, e.last);
    var metrics := CalculateMetrics(iterations);
    var d := completion(runs(e.last), e.last, maxIterations);
    match e.kind
    case Oscillated => LoopResult(Aborted, LoopFailed, iterations, OSCILLATION, metrics)
    case Paused => LoopResult(WaitingApproval, Waiting, iterations, d, metrics)
    case RecoveryAborted => LoopResult(Aborted, LoopFailed, iterations, d, metrics)
    case Decided => LoopResult(if d.action.Stop? then Completed else Failed,
                               if d.action.Stop? then Finished else LoopFailed, iterations, d, metrics)
    case Exhausted => LoopResult(Failed, LoopFailed, iterations, EXHAUSTION, metrics)
  }

  /** The result by kind of ending. */
  lemma ResultForms(runs: nat -> Report, completion: Completion, maxIterations: nat, e: Ending)
    ensures var iterations := IterationsUpTo(runs, e.last);
            var metrics, d := CalculateMetrics(iterations), completion(runs(e.last), e.last, maxIterations);
            ResultOf(runs, completion, maxIterations, e) ==
            match e.kind
            case Oscillated => LoopResult(Aborted, LoopFailed, iterations, OSCILLATION, metrics)
            case Paused => LoopResult(WaitingApproval, Waiting, iterations, d, metrics)
            case RecoveryAborted => LoopResult(Aborted, LoopFailed, iterations, d, metrics)
            case Decided => LoopResult(if d.action.Stop? then Completed else Failed,
                                       if d.action.Stop? then Finished else LoopFailed, iterations, d, metrics)
            case Exhausted => LoopResult(Failed, LoopFailed, iterations, EXHAUSTION, metrics)
  {}

  /** Every iteration is recorded as it went. */
  lemma {:induction false} IterationsExactly(runs: nat -> Report, n: nat, i: nat)
    requires i < n
    ensures IterationsUpTo(runs, n)[i] ==
            Iteration(i + 1, runs(i + 1).outcome == RunSucceeded, runs(i + 1).planningDecision)
  {
    if i < n - 1 { IterationsExactly(runs, n - 1, i); }
  }

  function Where(iterations: seq<Iteration>, p: Iteration -> bool): set<int> {
    set i | 0 <= i < |iterations| && p(iterations[i])
  }

  lemma {:induction false} CountExactly(iterations: seq<Iteration>, p: Iteration -> bool)
    ensures Count(iterations, p) == |Where(iterations, p)|
  {
    if iterations != [] {
      var n := |iterations| - 1;
      WhereGrows(iterations, p);
      CountExactly(iterations[..n], p);
      assert Count(iterations, p) == Count(iterations[..n], p) + if p(iterations[n]) then 1 else 0;
      assert n !in Where(iterations[..n], p);
      hide Where, Count;
    }
  }

  lemma WhereGrows(iterations: seq<Iteration>, p: Iteration -> bool)
    requires iterations != []
    ensures var n := |iterations| - 1;
            Where(iterations, p) == Where(iterations[..n], p) + if p(iterations[n]) then {n} else {}
  {
    var n := |iterations| - 1;
    assert iterations == iterations[..n] + [iterations[n]];
  }

  /** The metrics as numbers of iterations. */
  lemma MetricsExactly(iterations: seq<Iteration>)
    ensures var m := CalculateMetrics(iterations);
            && m.total == |iterations|
            && m.successful == |Where(iterations, (x: Iteration) => x.success)|
            && m.failed == |Where(iterations, (x: Iteration) => !x.success)|
            && m.replans == |Where(iterations, (x: Iteration) => x.planningDecision != None)|
  {
    CountExactly(iterations, Succeeded);
    CountExactly(iterations, NotSucceeded);
    CountExactly(iterations, Replanned);
    assert Where(iterations, Succeeded) == Where(iterations, (x: Iteration) => x.success);
    assert Where(iterations, NotSucceeded) == Where(iterations, (x: Iteration) => !x.success);
    assert Where(iterations, Replanned) == Where(iterations, (x: Iteration) => x.planningDecision != None);
    hide Where, Count;
  }

  /** What each ending makes of a loop. */
  lemma ResultsExactly(runs: nat -> Report, completion: Completion, maxIterations: nat, e: Ending)
    ensures var r, d := ResultOf(runs, completion, maxIterations, e), completion(runs(e.last), e.last, maxIterations);
            && |r.iterations| == e.last && r.metrics == CalculateMetrics(r.iterations)
            && (e.kind == Oscillated ==>
                  && r.state == Aborted && r.outcome == LoopFailed
                  && r.finalDecision == Decision(false, Escalate, false, Abort))
            && (e.kind == Paused ==> r.state == WaitingApproval && r.outcome == Waiting && r.finalDecision == d)
            && (e.kind == RecoveryAborted ==> r.state == Aborted && r.outcome == LoopFailed && r.finalDecision == d)
            && (e.kind == Decided && d.action == Stop ==>
                  r.state == Completed && r.outcome == Finished && r.finalDecision == d)
            && (e.kind == Decided && d.action != Stop ==>
                  r.state == Failed && r.outcome == LoopFailed && r.finalDecision == d)
            && (e.kind == Exhausted ==>
                  && r.state == Failed && r.outcome == LoopFailed
                  && r.finalDecision == Decision(false, Escalate, false, Retry))
  {
    hide CalculateMetrics;
  }

  /** Nothing ends the loop in iteration `k`. */
  predicate PassesOver(runs: nat -> Report, completion: Completion, recovery: Recovery, k: nat, maxIterations: nat) {
    var d := completion(runs(k), k, maxIterations);
    && !OscillatesAt(runs, k) && !d.requiresHuman && d.continueLoop
    && !(d.action == Replan && recovery(runs(k), d) == AbortLoop)
  }

  /**
   * Under any engines the loop ends in the first iteration that gives it a reason: oscillation before a pause before
   * an aborting recovery before a decision to stop; and only without any reason at all by running out.
   */
  lemma {:induction false} EndingExactly(runs: nat -> Report, completion: Completion, recovery: Recovery, k: nat,
                                         maxIterations: nat)
    requires 1 <= k <= maxIterations
    ensures var e := EndFrom(runs, completion, recovery, k, maxIterations);
            var d := completion(runs(e.last), e.last, maxIterations);
            && k <= e.last <= maxIterations
            && (forall j :: k <= j < e.last ==> PassesOver(runs, completion, recovery, j, maxIterations))
            && (e.kind == Exhausted <==> PassesOver(runs, completion, recovery, e.last, maxIterations))
            && (e.kind == Exhausted ==> e.last == maxIterations)
            && (e.kind == Oscillated <==> OscillatesAt(runs, e.last))
            && (e.kind == Paused <==> !OscillatesAt(runs, e.last) && d.requiresHuman)
            && (e.kind == RecoveryAborted <==>
                  && !OscillatesAt(runs, e.last) && !d.requiresHuman
                  && d.action == Replan && recovery(runs(e.last), d) == AbortLoop)
    decreases maxIterations - k
  {
    hide OscillatesAt;
    if k == maxIterations {
      assert EndFrom(runs, completion, recovery, k + 1, maxIterations) == Ending(maxIterations, Exhausted);
    } else {
      EndingExactly(runs, completion, recovery, k + 1, maxIterations);
    }
  }

  /** The window is two different plans, twice. */
  lemma AbabExactly(history: seq<string>)
    ensures EndsInAbab(history) <==>
              |history| >= 4 && exists a, b :: a != b && history[|history| - 4..] == [a, b, a, b]
  {
    if EndsInAbab(history) {
      var n := |history|;
      assert history[n - 4..] == [history[n - 4], history[n - 3], history[n - 4], history[n - 3]];
    }
    if |history| >= 4 {
      var n := |history|;
      assert history[n - 4..] == [history[n - 4], history[n - 3], history[n - 2], history[n - 1]];
    }
  }

  predicate EndsInAbab(history: seq<string>) {
    var n := |history|;
    n >= 4 && history[n - 1] != history[n - 2] && history[n - 1] == history[n - 3] && history[n - 2] == history[n - 4]
  }

  /** The plans of the first `k` runs. */
  predicate IsHistory(runs: nat -> Report, history: seq<string>, k: nat) {
    |history| == k && forall i :: 0 <= i < k ==> history[i] == runs(i + 1).planSignature
  }

  lemma WindowIsHistory(runs: nat -> Report, history: seq<string>, k: nat)
    requires IsHistory(runs, history, k)
    ensures EndsInAbab(history) <==> OscillatesAt(runs, k)
    ensures IsHistory(runs, history + [runs(k + 1).planSignature], k + 1)
  {}

  lemma TurnOfTheLoop(runs: nat -> Report, completion: Completion, recovery: Recovery, k: nat, maxIterations: nat)
    requires 1 <= k <= maxIterations
    ensures IterationsUpTo(runs, k) ==
            IterationsUpTo(runs, k - 1) + [Iteration(k, runs(k).outcome.RunSucceeded?, runs(k).planningDecision)]
    ensures var d := completion(runs(k), k, maxIterations);
            EndFrom(runs, completion, recovery, k, maxIterations) ==
            if OscillatesAt(runs, k) then Ending(k, Oscillated)
            else if d.requiresHuman then Ending(k, Paused)
            else if d.action.Replan? && recovery(runs(k), d).AbortLoop? then Ending(k, RecoveryAborted)
            else if !d.continueLoop then Ending(k, Decided)
            else EndFrom(runs, completion, recovery, k + 1, maxIterations)
  {}

  /** The loop object keeps the plan history between iterations of one execution. */
  class AutonomousLoopRuntime {
    const completion: Completion
    const recovery: Recovery
    var planHistory: seq<string>

    constructor (completion: Completion, recovery: Recovery)
      ensures this.completion == completion && this.recovery == recovery && planHistory == []
    {
      this.completion, this.recovery := completion, recovery;
      planHistory := [];
    }

    predicate IsOscillating()
      reads this
      ensures IsOscillating() == EndsInAbab(planHistory)
    {
      EndsInAbab(planHistory)
    }

    /** `runs(k)` is the outcome of the k-th execution of the goal. */
    method Execute(runs: nat -> Report, maxIterations: nat) returns (result: LoopResult)
      requires maxIterations >= 1
      modifies `planHistory
      ensures result == ResultOf(runs, completion, maxIterations, EndFrom(runs, completion, recovery, 1, maxIterations))
    {
      var iterations: seq<Iteration> := [];
      assert IterationsUpTo(runs, 0) == [] && IsHistory(runs, [], 0);
      assert EndFrom(runs, completion, recovery, maxIterations + 1, maxIterations) == Ending(maxIterations, Exhausted);
      var last: Option<(LoopState, LoopOutcome, Decision)> := None;
      planHistory := [];
      ghost var end := EndFrom(runs, completion, recovery, 1, maxIterations);
      ResultForms(runs, completion, maxIterations, end);
      hide *;
      for number := 1 to maxIterations + 1
        invariant IsHistory(runs, planHistory, number - 1)
        invariant iterations == IterationsUpTo(runs, number - 1)
        invariant last.None? && end == EndFrom(runs, completion, recovery, number, maxIterations)
      {
        var run := runs(number);
        var iteration := Iteration(number, run.outcome.RunSucceeded?, run.planningDecision);
        WindowIsHistory(runs, planHistory, number - 1);
        planHistory := planHistory + [run.planSignature];
        WindowIsHistory(runs, planHistory, number);
        TurnOfTheLoop(runs, completion, recovery, number, maxIterations);
        if IsOscillating() {
          assert end == Ending(number, Oscillated);
          iterations := iterations + [iteration];
          last := Some((Aborted, LoopFailed, OSCILLATION));
          break;
        }
        var decision := completion(run, number, maxIterations);
        if decision.requiresHuman {
          assert end == Ending(number, Paused);
          iterations := iterations + [iteration];
          return LoopResult(WaitingApproval, Waiting, iterations, decision, CalculateMetrics(iterations));
        }
        if decision.action.Replan? {
          var action := recovery(run, decision);
          if action.AbortLoop? {
            assert end == Ending(number, RecoveryAborted);
            iterations := iterations + [iteration];
            last := Some((Aborted, LoopFailed, decision));
            break;
          }
        }
        iterations := iterations + [iteration];
        if !decision.continueLoop {
          assert end == Ending(number, Decided);
          last := Some((if decision.action.Stop? then Completed else Failed,
                        if decision.action.Stop? then Finished else LoopFailed, decision));
          break;
        }
      }
      if last.None? {
        last := Some((Failed, LoopFailed, EXHAUSTION));
      }
      var (state, outcome, decision) := last.value;
      result := LoopResult(state, outcome, iterations, decision, CalculateMetrics(iterations));
    }
  }

  /**
   * A satisfied objective: the only thing that stops the default loop before its iterations run out,
   * critical findings apart.
   */
  predicate Satisfied(r: Report) { !r.outcome.RunFailed? && r.reviewScore >= 80 && !r.hasCriticalFinding }

  /** What the default engines can say. */
  lemma DefaultDecisions(r: Report, iteration: nat, maxIterations: nat)
    ensures var d := Evaluate(r, iteration, maxIterations);
            && !d.requiresHuman && (d.action.Stop? <==> Satisfied(r)) && (d.continueLoop ==> iteration < maxIterations)
            && (d.action.Replan? ==> d.continueLoop && !Recover(r, d).AbortLoop?)
            && (d.action.Stop? ==> !d.continueLoop)
  {}

  /** The default completion engine, rule by rule. */
  lemma EvaluateExactly(r: Report, iteration: nat, maxIterations: nat)
    ensures var d := Evaluate(r, iteration, maxIterations);
            && !d.requiresHuman
            && (r.outcome == RunFailed && iteration < maxIterations ==>
                  d.continueLoop && d.action == Replan && d.recovery == Retry)
            && (r.outcome == RunFailed && iteration >= maxIterations ==>
                  !d.continueLoop && d.action == Escalate && d.recovery == Abort)
            && (r.outcome != RunFailed && r.reviewScore < 80 && iteration < maxIterations ==>
                  d.continueLoop && d.action == Continue && d.recovery == DifferentStrategy)
            && (r.outcome != RunFailed && r.reviewScore < 80 && iteration >= maxIterations ==>
                  !d.continueLoop && d.action == Escalate && d.recovery == Retry)
            && (r.outcome != RunFailed && r.reviewScore >= 80 && r.hasCriticalFinding ==>
                  !d.continueLoop && d.action == Escalate && d.recovery == Abort)
            && (r.outcome != RunFailed && r.reviewScore >= 80 && !r.hasCriticalFinding ==>
                  !d.continueLoop && d.action == Stop && d.recovery == Retry)
  {}

  /** The default recovery engine aborts on its policy alone. */
  lemma RecoverExactly(r: Report, d: Decision)
    ensures Recover(r, d) == AbortLoop <==> d.recovery == Abort
    ensures Recover(r, d) == RetryPlan <==> d.recovery == Retry
    ensures Recover(r, d) == ExcludeWorker <==> d.recovery == DifferentWorker
    ensures Recover(r, d) == ChangeCapability <==> d.recovery == DifferentCapability
    ensures Recover(r, d) == ChangeStrategy <==> d.recovery == DifferentStrategy
  {}

  predicate GoesOn(runs: nat -> Report, k: nat, maxIterations: nat) {
    !OscillatesAt(runs, k) && Evaluate(runs(k), k, maxIterations).continueLoop
  }

  /** With the default engines a loop before iteration `k` ends at the first iteration that oscillates or decides. */
  lemma {:induction false} DefaultEnding(runs: nat -> Report, k: nat, maxIterations: nat)
    requires 1 <= k <= maxIterations
    ensures var e := EndFrom(runs, Evaluate, Recover, k, maxIterations);
            && k <= e.last <= maxIterations
            && e.kind == (if OscillatesAt(runs, e.last) then Oscillated else Decided)
            && !GoesOn(runs, e.last, maxIterations)
            && forall j :: k <= j < e.last ==> GoesOn(runs, j, maxIterations)
    decreases maxIterations - k
  {
    DefaultDecisions(runs(k), k, maxIterations);
    hide OscillatesAt, Evaluate, Recover;
    if GoesOn(runs, k, maxIterations) { DefaultEnding(runs, k + 1, maxIterations); }
  }

  /**
   * The default loop records iterations 1..n for some 1 <= n <= max, never falls through to the exhaustion
   * result, stops at the first ABAB window, and finishes exactly when its last run is satisfied and not
   * oscillating; successes and failures add up.
   */
  lemma DefaultLoopEndsProperly(runs: nat -> Report, maxIterations: nat)
    requires maxIterations >= 1
    ensures var e := EndFrom(runs, Evaluate, Recover, 1, maxIterations);
            var result := ResultOf(runs, Evaluate, maxIterations, e);
            && 1 <= |result.iterations| == e.last <= maxIterations
            && (forall i :: 0 <= i < |result.iterations| ==> result.iterations[i].number == i + 1)
            && !e.kind.Exhausted? && !e.kind.Paused? && !e.kind.RecoveryAborted?
            && (result.outcome.Finished? <==> !OscillatesAt(runs, e.last) && Satisfied(runs(e.last)))
            && (result.state.Aborted? <==> OscillatesAt(runs, e.last))
            && (forall j :: 1 <= j < e.last ==> !OscillatesAt(runs, j) && !Satisfied(runs(j)))
            && result.metrics.total == |result.iterations|
            && result.metrics.successful + result.metrics.failed == result.metrics.total
  {
    DefaultEnding(runs, 1, maxIterations);
    var e := EndFrom(runs, Evaluate, Recover, 1, maxIterations);
    CountsSplit(IterationsUpTo(runs, e.last));
    forall i | 0 <= i < e.last ensures IterationsUpTo(runs, e.last)[i].number == i + 1 {
      IterationsExactly(runs, e.last, i);
    }
    DefaultDecisions(runs(e.last), e.last, maxIterations);
    hide OscillatesAt, Evaluate, Recover, EndFrom, Count, IterationsUpTo, Satisfied;
    forall j | 1 <= j < e.last ensures !OscillatesAt(runs, j) && !Satisfied(runs(j)) {
      assert GoesOn(runs, j, maxIterations);
      DefaultDecisions(runs(j), j, maxIterations);
    }
  }

  /**
   * When a finished loop ends on a success: exactly when its last run was neither cancelled nor partial. And a
   * loop finishes with a successful last run exactly when that run succeeded, was satisfied and did not oscillate.
   */
  lemma FinishedSucceedsExactly(runs: nat -> Report, maxIterations: nat)
    requires maxIterations >= 1
    ensures var e := EndFrom(runs, Evaluate, Recover, 1, maxIterations);
            var result := ResultOf(runs, Evaluate, maxIterations, e);
            && result.iterations != []
            && var last := result.iterations[|result.iterations| - 1];
            && (result.outcome.Finished? ==>
                  (last.success <==> !runs(e.last).outcome.RunCancelled? && !runs(e.last).outcome.RunPartial?))
            && (result.outcome.Finished? && last.success <==>
                  runs(e.last).outcome.RunSucceeded? && Satisfied(runs(e.last)) && !OscillatesAt(runs, e.last))
  {
    DefaultLoopEndsProperly(runs, maxIterations);
    var e := EndFrom(runs, Evaluate, Recover, 1, maxIterations);
    IterationsExactly(runs, e.last, e.last - 1);
    assert ResultOf(runs, Evaluate, maxIterations, e).iterations == IterationsUpTo(runs, e.last);
    hide OscillatesAt, Evaluate, Recover, EndFrom, IterationsUpTo, ResultOf;
  }

  /** Runs that only succeed or fail, as the shipped coordinator's do, finish a loop only with a success. */
  lemma FinishedMeansSucceeded(runs: nat -> Report, maxIterations: nat)
    requires maxIterations >= 1
    requires forall k :: runs(k).outcome.RunSucceeded? || runs(k).outcome.RunFailed?
    ensures var result := ResultOf(runs, Evaluate, maxIterations, EndFrom(runs, Evaluate, Recover, 1, maxIterations));
            result.outcome.Finished? ==>
              result.iterations != [] && result.iterations[|result.iterations| - 1].success
              && result.metrics.successful >= 1
  {
    FinishedSucceedsExactly(runs, maxIterations);
    var e := EndFrom(runs, Evaluate, Recover, 1, maxIterations);
    assert ResultOf(runs, Evaluate, maxIterations, e).metrics == CalculateMetrics(IterationsUpTo(runs, e.last));
    assert ResultOf(runs, Evaluate, maxIterations, e).iterations == IterationsUpTo(runs, e.last);
    hide OscillatesAt, Evaluate, Recover, EndFrom, IterationsUpTo, ResultOf;
  }

  /** A cancelled run with an acceptable review ends the loop as finished without any success. */
  lemma FinishedNeedsNoSuccess(maxIterations: nat)
    requires maxIterations >= 1
    ensures var runs := (k: nat) => Report(RunCancelled, "", 80, false, None);
            var result := ResultOf(runs, Evaluate, maxIterations, EndFrom(runs, Evaluate, Recover, 1, maxIterations));
            result.outcome.Finished? && result.metrics.successful == 0
  {
    var runs := (k: nat) => Report(RunCancelled, "", 80, false, None);
    assert EndFrom(runs, Evaluate, Recover, 1, maxIterations) == Ending(1, Decided);
    assert IterationsUpTo(runs, 1) == [Iteration(1, false, None)];
    assert Count([Iteration(1, false, None)], Succeeded) == 0;
  }
}
