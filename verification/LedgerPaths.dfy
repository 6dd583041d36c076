/** Completeness of the ledger: every legal path within budget is a run, and every run traces such a path. */
module LedgerPaths {
  import opened Wrappers
  import opened Ledger
  import opened LedgerRuns

  /** Consecutive states joined by legal edges, starting after `from`. */
  predicate IsLegalPath(from: State, path: seq<State>) {
    path == [] ||
    (path[|path| - 1] in LegalTargets(EndOf(from, path[..|path| - 1])) && IsLegalPath(from, path[..|path| - 1]))
  }

  function EndOf(from: State, path: seq<State>): State { if path == [] then from else path[|path| - 1] }

  function Visits(path: seq<State>, s: State): nat {
    if path == [] then 0 else Visits(path[..|path| - 1], s) + if path[|path| - 1] == s then 1 else 0
  }

  /** The budget covers every consuming entry of the path. */
  predicate Affordable(b: Budget, path: seq<State>) {
    && b.iterationsUsed + Visits(path, ContextAssembling) <= b.maxIterations
    && b.mutationsUsed + Visits(path, Mutating) <= b.maxMutations
    && b.verificationsUsed + Visits(path, Verifying) <= b.maxVerifications
  }

  /** A stop reason every terminal state accepts. */
  function FittingReason(s: State): Option<StopReason> {
    if s.Completed? then Some(StopReason.Success) else if s.Failed? then Some(Unrecoverable)
    else if s.Aborted? then Some(UserAborted) else None
  }

  function RequestsFor(path: seq<State>): seq<Request> {
    seq(|path|, i requires 0 <= i < |path| => Request(path[i], [], FittingReason(path[i]), 0))
  }

  function Trace(history: seq<Record>): seq<State> {
    seq(|history|, i requires 0 <= i < |history| => history[i].toState)
  }

  lemma CountersAfter(c: Context, r: Request)
    requires Valid(c) && Transition(c, r).Accepted?
    ensures var b, b', s := c.budget, Transition(c, r).context.budget, Entered(c, r.target);
            && b'.iterationsUsed == b.iterationsUsed + (if s.ContextAssembling? then 1 else 0)
            && b'.mutationsUsed == b.mutationsUsed + (if s.Mutating? then 1 else 0)
            && b'.verificationsUsed == b.verificationsUsed + if s.Verifying? then 1 else 0
  {
    hide HistoryError, LegalTargets, CheckStopReason;
  }

  /** What a run along `path` has done: the counters and trace moved by exactly the path. */
  ghost predicate Followed(c: Context, path: seq<State>, d: Context) {
    && Valid(d) && d.state == EndOf(c.state, path) && StartOf(d) == StartOf(c)
    && Trace(d.history) == Trace(c.history) + path
    && d.budget.iterationsUsed == c.budget.iterationsUsed + Visits(path, ContextAssembling)
    && d.budget.mutationsUsed == c.budget.mutationsUsed + Visits(path, Mutating)
    && d.budget.verificationsUsed == c.budget.verificationsUsed + Visits(path, Verifying)
  }

  lemma FollowOne(c: Context, path: seq<State>, d: Context, target: State)
    requires Followed(c, path, d) && target in LegalTargets(d.state) && Affordable(c.budget, path + [target])
    ensures var r := Request(target, [], FittingReason(target), 0);
            Transition(d, r).Accepted? && Followed(c, path + [target], Transition(d, r).context)
  {
    var r := Request(target, [], FittingReason(target), 0);
    assert (path + [target])[..|path|] == path;
    assert StartOf(d).budget == StartOf(c).budget;
    assert !Exhausted(d.budget, target);
    AcceptanceIsExact(d, r);
    CountersAfter(d, r);
    var next := Transition(d, r).context;
    assert next.history == d.history + [NextRecord(d, r)];
    assert Trace(next.history) == Trace(d.history) + [target];
    hide Transition, LegalTargets, HistoryError, NextRecord;
  }

  /** Any legal path the budget covers is accepted, step by step, and leaves exactly that trace. */
  lemma {:induction false} LegalPathsAreRuns(c: Context, path: seq<State>)
    requires Valid(c) && IsLegalPath(c.state, path) && Affordable(c.budget, path)
    ensures Run(c, RequestsFor(path)).Some? && Followed(c, path, Run(c, RequestsFor(path)).value)
    decreases |path|
  {
    if path == [] {
      assert Trace(c.history) + [] == Trace(c.history);
    } else {
      var front, last := path[..|path| - 1], path[|path| - 1];
      PrefixIsLegal(c, path);
      assert path == front + [last];
      hide *;
      LegalPathsAreRuns(c, front);
      var d := Run(c, RequestsFor(front)).value;
      FollowedEnds(c, front, d);
      FollowOne(c, front, d, last);
      RunOneMore(c, path);
    }
  }

  lemma PrefixIsLegal(c: Context, path: seq<State>)
    requires path != [] && IsLegalPath(c.state, path) && Affordable(c.budget, path)
    ensures var front := path[..|path| - 1];
            && Affordable(c.budget, front) && IsLegalPath(c.state, front)
            && path[|path| - 1] in LegalTargets(EndOf(c.state, front))
  {}

  lemma FollowedEnds(c: Context, path: seq<State>, d: Context)
    requires Followed(c, path, d)
    ensures d.state == EndOf(c.state, path)
  {}

  lemma RunOneMore(c: Context, path: seq<State>)
    requires path != [] && Run(c, RequestsFor(path[..|path| - 1])).Some?
    ensures var last := path[|path| - 1];
            var step := Transition(Run(c, RequestsFor(path[..|path| - 1])).value,
                                  Request(last, [], FittingReason(last), 0));
            Run(c, RequestsFor(path)) == if step.Accepted? then Some(step.context) else None
  {
    assert RequestsFor(path)[..|path| - 1] == RequestsFor(path[..|path| - 1]);
    hide Transition;
  }

  /** Conversely, the trace of a valid ledger is a legal path its budget covered. */
  lemma {:induction false} TracesAreLegalPaths(history: seq<Record>)
    requires ScanHistory(history).Success?
    ensures var s := ScanHistory(history).value;
            && IsLegalPath(Created, Trace(history)) && s.state == EndOf(Created, Trace(history))
            && s.iteration == Visits(Trace(history), ContextAssembling)
            && s.mutations == Visits(Trace(history), Mutating) && s.verifications == Visits(Trace(history), Verifying)
  {
    if history != [] {
      var front := history[..|history| - 1];
      TracesAreLegalPaths(front);
      assert Trace(history)[..|history| - 1] == Trace(front);
    }
  }

  /** The traces of the ledgers one can run from a created context are exactly the affordable legal paths. */
  lemma RunsAreExactlyLegalPaths(start: Context, path: seq<State>)
    requires Initial(start)
    ensures IsLegalPath(Created, path) && Affordable(start.budget, path) <==>
              exists requests :: Run(start, requests).Some? && Trace(Run(start, requests).value.history) == path
  {
    if IsLegalPath(Created, path) && Affordable(start.budget, path) {
      LegalPathsAreRuns(start, path);
      assert Trace(start.history) + path == path;
      assert Trace(Run(start, RequestsFor(path)).value.history) == path;
    }
    hide Run, Trace, IsLegalPath, RequestsFor;
    if requests :| Run(start, requests).Some? && Trace(Run(start, requests).value.history) == path {
      TraceIsAffordable(start, requests);
    }
  }

  lemma TraceIsAffordable(start: Context, requests: seq<Request>)
    requires Initial(start) && Run(start, requests).Some?
    ensures var path := Trace(Run(start, requests).value.history);
            IsLegalPath(Created, path) && Affordable(start.budget, path)
  {
    RunKeepsValid(start, requests);
    var d := Run(start, requests).value;
    ScanMatchesFields(d);
    TracesAreLegalPaths(d.history);
    assert StartOf(d).budget == StartOf(start).budget;
    assert start.budget.iterationsUsed == start.budget.mutationsUsed == start.budget.verificationsUsed == 0;
    hide ScanHistory, HistoryError, Trace, IsLegalPath, Run, StartOf;
  }

  lemma ExtendPath(from: State, path: seq<State>, s: State)
    requires IsLegalPath(from, path) && s in LegalTargets(EndOf(from, path))
    ensures IsLegalPath(from, path + [s]) && EndOf(from, path + [s]) == s
    ensures forall t :: Visits(path + [s], t) == Visits(path, t) + if s == t then 1 else 0
  {
    assert (path + [s])[..|path|] == path;
  }

  function ProposalPath(): seq<State> { [] + [ContextAssembling] + [Planning] + [Deciding] + [Proposing] }

  /** One iteration up to its verification, with or without a human approval. */
  function IterationPath(approval: bool): seq<State> {
    (if approval then ProposalPath() + [ApprovalPending] else ProposalPath()) + [Authorizing] + [Mutating] + [Verifying]
  }

  function SuccessPath(approval: bool): seq<State> { IterationPath(approval) + [State.Completed] }

  function RecoveryPath(approval: bool): seq<State> { IterationPath(approval) + [Reflecting] + [Replanning] }

  ghost predicate OneOfEach(path: seq<State>) {
    Visits(path, ContextAssembling) == Visits(path, Mutating) == Visits(path, Verifying) == 1
  }

  lemma IterationPathIsLegal(from: State, approval: bool)
    requires ContextAssembling in LegalTargets(from)
    ensures IsLegalPath(from, IterationPath(approval)) && EndOf(from, IterationPath(approval)).Verifying?
    ensures OneOfEach(IterationPath(approval))
  {
    hide IsLegalPath, Visits, ProposalPath;
    ProposalPathIsLegal(from);
    var b := ProposalPath();
    if approval { ExtendPath(from, b, ApprovalPending); }
    var c := if approval then b + [ApprovalPending] else b;
    assert Authorizing in LegalTargets(EndOf(from, c));
    ExtendPath(from, c, Authorizing);
    ExtendPath(from, c + [Authorizing], Mutating);
    ExtendPath(from, c + [Authorizing] + [Mutating], Verifying);
  }

  lemma ProposalPathIsLegal(from: State)
    requires ContextAssembling in LegalTargets(from)
    ensures IsLegalPath(from, ProposalPath()) && EndOf(from, ProposalPath()).Proposing?
    ensures Visits(ProposalPath(), ContextAssembling) == 1
    ensures Visits(ProposalPath(), Mutating) == Visits(ProposalPath(), Verifying) == 0
  {
    ExtendPath(from, [], ContextAssembling);
    var a := [] + [ContextAssembling];
    hide IsLegalPath, Visits;
    ExtendPath(from, a, Planning);
    ExtendPath(from, a + [Planning], Deciding);
    ExtendPath(from, a + [Planning] + [Deciding], Proposing);
  }

  lemma BothOutcomesAreLegal(from: State, approval: bool)
    requires ContextAssembling in LegalTargets(from)
    ensures IsLegalPath(from, SuccessPath(approval)) && OneOfEach(SuccessPath(approval))
    ensures IsLegalPath(from, RecoveryPath(approval)) && OneOfEach(RecoveryPath(approval))
  {
    IterationPathIsLegal(from, approval);
    ExtendPath(from, IterationPath(approval), State.Completed);
    ExtendPath(from, IterationPath(approval), Reflecting);
    ExtendPath(from, IterationPath(approval) + [Reflecting], Replanning);
    hide IsLegalPath, Visits, IterationPath;
  }

  predicate OneIterationLeft(b: Budget) {
    b.iterationsUsed < b.maxIterations && b.mutationsUsed < b.maxMutations && b.verificationsUsed < b.maxVerifications
  }

  /** With one unit left of each budget an iteration can be run through to success, and through to replanning. */
  lemma IterationIsOpen(c: Context, approval: bool)
    requires Valid(c) && ContextAssembling in LegalTargets(c.state) && OneIterationLeft(c.budget)
    ensures exists requests :: Run(c, requests).Some? && Run(c, requests).value.state.Completed?
              && Trace(Run(c, requests).value.history) == Trace(c.history) + SuccessPath(approval)
    ensures exists requests :: Run(c, requests).Some? && Run(c, requests).value.state.Replanning?
              && Trace(Run(c, requests).value.history) == Trace(c.history) + RecoveryPath(approval)
  {
    BothOutcomesAreLegal(c.state, approval);
    LegalPathsAreRuns(c, SuccessPath(approval));
    LegalPathsAreRuns(c, RecoveryPath(approval));
    hide IterationPath, Visits, IsLegalPath, Run, LegalTargets;
    assert Run(c, RequestsFor(SuccessPath(approval))).Some?;
    assert Run(c, RequestsFor(RecoveryPath(approval))).Some?;
  }

  /** Every unfinished ledger is one accepted transition away from a terminal state. */
  lemma EveryLedgerCanEnd(c: Context)
    requires Valid(c) && !c.state.IsTerminal()
    ensures exists r :: Transition(c, r).Accepted? && Transition(c, r).context.state.IsTerminal()
  {
    var target := if Failed in LegalTargets(c.state) then Failed else Aborted;
    var r := Request(target, [], FittingReason(target), 0);
    AcceptanceIsExact(c, r);
    assert Transition(c, r).Accepted? && Transition(c, r).context.state.IsTerminal();
  }
}
