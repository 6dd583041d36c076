/** One `execute` call from start to end: policy, reservation, launch, then consumption or release. */
module CommandExecution {
  import opened Wrappers
  import opened Approval
  import Race = ApprovalRace

  /** What policy evaluation says: it may itself reject the request. */
  datatype Verdict = Violated | Decided(outcome: PolicyOutcome)

  datatype Launch = Exits(code: int) | TimesOut | FailsToStart

  datatype CommandResult = CommandResult(exitCode: Option<int>, timedOut: bool)

  datatype ExecutionError =
    | ExecutableNotFound | PolicyViolated | CommandDenied | ApprovalRequired | StartFailed
    | ApprovalFault(error: ApprovalError)

  datatype Notice = WasRejected(error: ExecutionError) | WasStarted
    | HasTimedOut(r: CommandResult) | HasCompleted(r: CommandResult)

  type Outcome = Result<CommandResult, ExecutionError>

  /** A call with what its surroundings answer: lookup, policy, process, and the two clock readings. */
  datatype Invocation = Invocation(
    command: Command, approvalId: Option<string>, found: bool, verdict: Verdict,
    launch: Launch, reserveAt: int, consumeAt: int)
  {
    /** The call gets as far as asking for the approval. */
    predicate AsksFor(id: string) { found && verdict == Decided(RequireApproval) && approvalId == Some(id) }

    /** Policy allows the command, or a usable approval backs it. */
    predicate Permitted(s: Snapshot, managed: bool) {
      verdict == Decided(Allow) ||
      (managed && approvalId.Some? && AsksFor(approvalId.value) && Usable(s, this, approvalId.value))
    }
  }

  /** The approval is there for this command, approved and not due. */
  predicate Usable(s: Snapshot, call: Invocation, id: string) {
    id in s.requests && s.requests[id].status.Approved? && !s.requests[id].IsExpired(call.reserveAt)
    && s.requests[id].command == call.command
  }

  /** Whether the process gets to run, to its end or to its timeout. */
  predicate Runs(s: Snapshot, managed: bool, call: Invocation) {
    call.found && !call.launch.FailsToStart? && call.Permitted(s, managed)
  }

  /** What a call leaves behind among the approvals. */
  function Settled(s: Snapshot, managed: bool, call: Invocation): Snapshot {
    if !managed || call.approvalId.None? || !call.AsksFor(call.approvalId.value) ||
       call.approvalId.value !in s.requests then s else
      var request := s.requests[call.approvalId.value];
      var reserved := request.(status := Reserved);
      if request.status.Approved? && request.IsExpired(call.reserveAt) then Lapse(s, request)
      else if !Usable(s, call, call.approvalId.value) then s
      else if call.launch.FailsToStart? then
        Snapshot(s.requests, s.events + [Event(WasReserved, reserved), Event(WasReleased, request)])
      else
        var consumed := request.(status := Consumed, consumedAt := Some(call.consumeAt));
        Snapshot(s.requests[call.approvalId.value := consumed],
                 s.events + [Event(WasReserved, reserved), Event(WasConsumed, consumed)])
  }

  function ResultOf(launch: Launch): CommandResult
    requires !launch.FailsToStart?
  {
    match launch
    case Exits(code) => CommandResult(Some(code), false)
    case TimesOut => CommandResult(None, true)
  }

  /** Why a call that runs nothing is refused. */
  function RefusalOf(s: Snapshot, managed: bool, call: Invocation): ExecutionError {
    if !call.found then ExecutableNotFound
    else if call.verdict.Violated? then PolicyViolated
    else if call.verdict.outcome.Deny? then CommandDenied
    else if call.verdict.outcome.RequireApproval? && (call.approvalId.None? || !managed) then ApprovalRequired
    else if call.verdict.outcome.RequireApproval? && call.approvalId.value !in s.requests then ApprovalFault(NotFound)
    else if call.verdict.outcome.RequireApproval? && !Usable(s, call, call.approvalId.value) then
      var request := s.requests[call.approvalId.value];
      match request.status
      case Pending => ApprovalRequired
      case Reserved => ApprovalRequired
      case Consumed => ApprovalRequired
      case Rejected => CommandDenied
      case Expired => ApprovalFault(HasExpired)
      case Approved => ApprovalFault(if request.IsExpired(call.reserveAt) then HasExpired else CommandMismatch)
    else StartFailed
  }

  /** What a call answers. */
  function OutcomeOf(s: Snapshot, managed: bool, call: Invocation): Outcome {
    if Runs(s, managed, call) then Success(ResultOf(call.launch)) else Failure(RefusalOf(s, managed, call))
  }

  /** What a launch comes to. */
  predicate Launched(launch: Launch, r: Outcome) {
    match launch
    case Exits(code) => r == Success(CommandResult(Some(code), false))
    case TimesOut => r == Success(CommandResult(None, true))
    case FailsToStart => r == Failure(StartFailed)
  }

  /** The answer read off the fields of the call and of the request it names. */
  lemma AnswersExactly(s: Snapshot, managed: bool, call: Invocation)
    ensures var r := OutcomeOf(s, managed, call);
            && (!call.found ==> r == Failure(ExecutableNotFound))
            && (call.found && call.verdict == Violated ==> r == Failure(PolicyViolated))
            && (call.found && call.verdict == Decided(Deny) ==> r == Failure(CommandDenied))
            && (call.found && call.verdict == Decided(Allow) ==> Launched(call.launch, r))
            && (call.found && call.verdict == Decided(RequireApproval) ==>
                  if call.approvalId.None? || !managed then r == Failure(ApprovalRequired)
                  else if call.approvalId.value !in s.requests then r == Failure(ApprovalFault(NotFound))
                  else
                    var request := s.requests[call.approvalId.value];
                    match request.status
                    case Pending => r == Failure(ApprovalRequired)
                    case Reserved => r == Failure(ApprovalRequired)
                    case Consumed => r == Failure(ApprovalRequired)
                    case Rejected => r == Failure(CommandDenied)
                    case Expired => r == Failure(ApprovalFault(HasExpired))
                    case Approved =>
                      if request.expiresAt.Some? && request.expiresAt.value <= call.reserveAt
                      then r == Failure(ApprovalFault(HasExpired))
                      else if request.command != call.command then r == Failure(ApprovalFault(CommandMismatch))
                      else Launched(call.launch, r))
  {}

  /** The approvals left behind, likewise. Only an approved request of a found, approval-bound call is ever touched. */
  lemma SettlesExactly(s: Snapshot, managed: bool, call: Invocation)
    ensures var t := Settled(s, managed, call);
            if call.found && managed && call.verdict == Decided(RequireApproval) && call.approvalId.Some?
               && call.approvalId.value in s.requests && s.requests[call.approvalId.value].status == Approved
            then
              var id := call.approvalId.value;
              var request := s.requests[id];
              var reserved := request.(status := Reserved);
              var consumed := request.(status := Consumed, consumedAt := Some(call.consumeAt));
              if request.expiresAt.Some? && request.expiresAt.value <= call.reserveAt then
                && t.events == s.events + [Event(WasExpired, request.(status := Expired))]
                && t.requests == s.requests[request.id := request.(status := Expired)]
              else if request.command != call.command then t == s
              else if call.launch == FailsToStart then
                t == Snapshot(s.requests, s.events + [Event(WasReserved, reserved), Event(WasReleased, request)])
              else
                && t.requests == s.requests[id := consumed]
                && t.events == s.events + [Event(WasReserved, reserved), Event(WasConsumed, consumed)]
            else t == s
  {}

  /** A start is announced exactly when the launch is attempted; every refusal but the approval's own is announced. */
  lemma NoticesExactly(r: Outcome)
    ensures NoticesOf(r) ==
            match r
            case Success(CommandResult(code, true)) => [WasStarted, HasTimedOut(CommandResult(code, true))]
            case Success(CommandResult(code, false)) => [WasStarted, HasCompleted(CommandResult(code, false))]
            case Failure(StartFailed) => [WasStarted, Notice.WasRejected(StartFailed)]
            case Failure(ApprovalFault(_)) => []
            case Failure(error) => [Notice.WasRejected(error)]
  {}

  /** What is published along with an outcome. */
  function NoticesOf(r: Outcome): seq<Notice> {
    match r
    case Success(result) => [WasStarted, if result.timedOut then HasTimedOut(result) else HasCompleted(result)]
    case Failure(error) =>
      if error.ApprovalFault? then [] else if error.StartFailed? then [WasStarted, Notice.WasRejected(error)]
      else [Notice.WasRejected(error)]
  }

  /** The statuses the executor does not judge itself. */
  predicate LeftToReserve(s: Snapshot, id: string) {
    id in s.requests && (s.requests[id].status.Approved? || s.requests[id].status.Expired?)
  }

  /** The manager calls of one execution, and what they add up to. */
  lemma ApprovalSteps(s: Snapshot, call: Invocation, id: string)
    requires call.AsksFor(id) && WellKeyed(s.requests)
    ensures var (a, reservation) := Apply(s, Reserve(id, call.command, call.reserveAt));
            && (reservation.Success? <==> Usable(s, call, id))
            && (reservation.Failure? && !LeftToReserve(s, id) ==> Settled(s, true, call) == s)
            && (reservation.Failure? && LeftToReserve(s, id) ==>
                  Settled(s, true, call) == a && RefusalOf(s, true, call) == ApprovalFault(reservation.error))
            && (reservation.Success? && call.launch.FailsToStart? ==> Apply(a, Release(id)).0 == Settled(s, true, call))
            && (reservation.Success? && !call.launch.FailsToStart? ==>
                  var (c, consumption) := Apply(a, Consume(id, call.command, call.consumeAt));
                  consumption.Success? && c == Settled(s, true, call))
  {}

  class CommandExecutor {
    const manager: ApprovalManager?
    var notices: seq<Notice>

    constructor (manager: ApprovalManager?)
      ensures this.manager == manager && notices == []
    {
      this.manager := manager;
      notices := [];
    }

    ghost function Approvals(): set<object> {
      if manager == null then {} else {manager, manager.store}
    }

    ghost function Stored(): Snapshot
      reads Approvals()
    {
      if manager == null then Snapshot(map[], []) else manager.State()
    }

    ghost predicate Valid()
      reads Approvals()
    {
      manager != null ==> manager.Valid()
    }

    method Reject(error: ExecutionError) returns (r: Outcome)
      modifies `notices
      ensures notices == old(notices) + [Notice.WasRejected(error)] && r == Failure(error)
    {
      notices := notices + [Notice.WasRejected(error)];
      r := Failure(error);
    }

    /** Policy and reservation: an error that publishes and leaves what `Settled` says, or leave to launch. */
    method Authorize(call: Invocation) returns (r: Result<bool, ExecutionError>)
      requires Valid() && call.found
      modifies this, Approvals()
      ensures Valid()
      ensures r.Failure? ==>
                && !call.Permitted(old(Stored()), manager != null)
                && r.error == RefusalOf(old(Stored()), manager != null, call)
                && Stored() == Settled(old(Stored()), manager != null, call)
                && notices == old(notices) + NoticesOf(Failure(r.error))
      ensures r.Success? ==>
                && call.Permitted(old(Stored()), manager != null) && notices == old(notices)
                && (r.value <==> call.verdict == Decided(RequireApproval))
                && (r.value ==>
                      var reserve := Reserve(call.approvalId.value, call.command, call.reserveAt);
                      Stored() == Apply(old(Stored()), reserve).0)
                && (!r.value ==> Stored() == old(Stored()))
    {
      ghost var before, managed := Stored(), manager != null;
      if managed && call.approvalId.Some? && call.AsksFor(call.approvalId.value) {
        ApprovalSteps(before, call, call.approvalId.value);
      } else {
        assert Settled(before, managed, call) == before;
      }
      hide Apply, Settled, Usable;
      if call.verdict.Violated? {
        var _ := Reject(PolicyViolated);
        return Failure(PolicyViolated);
      }
      if call.verdict.outcome.Deny? {
        var _ := Reject(CommandDenied);
        return Failure(CommandDenied);
      }
      if call.verdict.outcome.RequireApproval? {
        if call.approvalId.None? || manager == null {
          var _ := Reject(ApprovalRequired);
          return Failure(ApprovalRequired);
        }
        var got := manager.store.Get(call.approvalId.value);
        if got.Failure? {
          return Failure(ApprovalFault(got.error));
        }
        var status := got.value.status;
        if status.Pending? || status.Consumed? || status.Reserved? {
          var _ := Reject(ApprovalRequired);
          return Failure(ApprovalRequired);
        }
        if status.Rejected? {
          var _ := Reject(CommandDenied);
          return Failure(CommandDenied);
        }
        var reservation := manager.Reserve(call.approvalId.value, call.command, call.reserveAt);
        if reservation.Failure? {
          return Failure(ApprovalFault(reservation.error));
        }
        return Success(true);
      }
      r := Success(false);
    }

    /** The process runs exactly when it may and can, and then the approval is spent; otherwise nothing is spent. */
    method Execute(call: Invocation) returns (r: Outcome)
      requires Valid()
      modifies this, Approvals()
      ensures Valid()
      ensures r == OutcomeOf(old(Stored()), manager != null, call)
      ensures Stored() == Settled(old(Stored()), manager != null, call)
      ensures notices == old(notices) + NoticesOf(r)
    {
      ghost var before, managed := Stored(), manager != null;
      if managed && call.approvalId.Some? && call.AsksFor(call.approvalId.value) {
        ApprovalSteps(before, call, call.approvalId.value);
      } else {
        assert Settled(before, managed, call) == before;
      }
      hide Apply, Settled, Usable;
      if !call.found {
        r := Reject(ExecutableNotFound);
        return;
      }
      var authorized := Authorize(call);
      if authorized.Failure? {
        return Failure(authorized.error);
      }
      var approvalReserved := authorized.value;
      notices := notices + [WasStarted];
      if call.launch.FailsToStart? {
        if approvalReserved {
          var _ := manager.Release(call.approvalId.value);
        }
        r := Reject(StartFailed);
        return;
      }
      if approvalReserved {
        var consumption := manager.Consume(call.approvalId.value, call.command, call.consumeAt);
        assert consumption.Success?;   // nobody else acts in between
      }
      var result := ResultOf(call.launch);
      notices := notices + [if result.timedOut then HasTimedOut(result) else HasCompleted(result)];
      r := Success(result);
    }
  }

  /** Anything that happens to the approvals, one call at a time: management or execution. */
  datatype Deed = Manage(call: Call) | Run(invocation: Invocation)

  function After(s: Snapshot, deed: Deed): Snapshot {
    match deed
    case Manage(call) => Apply(s, call).0
    case Run(invocation) => Settled(s, true, invocation)
  }

  function AfterAll(s: Snapshot, deeds: seq<Deed>): Snapshot {
    if deeds == [] then s else After(AfterAll(s, deeds[..|deeds| - 1]), deeds[|deeds| - 1])
  }

  /** The deed ran a process on the strength of approval `id`. */
  predicate Spends(s: Snapshot, deed: Deed, id: string) {
    deed.Run? && deed.invocation.AsksFor(id) && Runs(s, true, deed.invocation)
  }

  function RunsOn(s: Snapshot, deeds: seq<Deed>, id: string): nat {
    if deeds == [] then 0 else
      var front, last := deeds[..|deeds| - 1], deeds[|deeds| - 1];
      RunsOn(s, front, id) + if Spends(AfterAll(s, front), last, id) then 1 else 0
  }

  /** How the consumption of `id` moves with one deed: a run spends it, and once spent it stays so. */
  lemma DeedSpends(s: Snapshot, deed: Deed, id: string)
    requires WellKeyed(s.requests)
    ensures var t := After(s, deed);
            && WellKeyed(t.requests)
            && (Spends(s, deed, id) ==> !Spent(s, id) && Spent(t, id)) && (Spent(s, id) ==> Spent(t, id))
  {}

  predicate Spent(s: Snapshot, id: string) { id in s.requests && s.requests[id].status.Consumed? }

  /** Whatever is managed and executed in between, an approval carries one run at most. */
  lemma {:induction false} OneRunPerApproval(s: Snapshot, deeds: seq<Deed>, id: string)
    requires WellKeyed(s.requests)
    ensures WellKeyed(AfterAll(s, deeds).requests)
    ensures RunsOn(s, deeds, id) + (if Spent(s, id) then 1 else 0) <= if Spent(AfterAll(s, deeds), id) then 1 else 0
  {
    if deeds != [] {
      var front, last := deeds[..|deeds| - 1], deeds[|deeds| - 1];
      OneRunPerApproval(s, front, id);
      DeedSpends(AfterAll(s, front), last, id);
      hide Spends, Spent, After;
    }
  }

  /** Left undisturbed, the interleaved steps of one call add up to the whole call. */
  lemma UndisturbedStepsAreExecute(s: Snapshot, call: Invocation, id: string)
    requires WellKeyed(s.requests) && id in s.requests && call.AsksFor(id)
    ensures var request := s.requests[id];
            var choice := Race.Choice(request.IsExpired(call.reserveAt), !call.launch.FailsToStart?, true);
            var end := Race.Solo(Race.Thread(Race.Checking, request.command == call.command),
                                request.status, choice, 9);
            && end.1 == Settled(s, true, call).requests[id].status
            && end.0.pc == if Runs(s, true, call) then Race.Returned else Race.Raised
  {
    var request := s.requests[id];
    SoloCall(request.command == call.command, request.status,
             Race.Choice(request.IsExpired(call.reserveAt), !call.launch.FailsToStart?, true));
    hide Race.Solo;
  }

  lemma SoloCall(matches: bool, status: Status, choice: Race.Choice)
    ensures Race.Solo(Race.Thread(Race.Checking, matches), status, choice, 9) ==
            if status.Approved? && choice.due then (Race.Thread(Race.Raised, matches), Expired)
            else if status.Approved? && matches && choice.starts then (Race.Thread(Race.Returned, matches), Consumed)
            else (Race.Thread(Race.Raised, matches), status)
  {
    var start := Race.Thread(Race.Checking, matches);
    SoloSplits(start, status, choice, 1, 8);
    assert Race.Solo(start, status, choice, 1) ==
           Race.Solo(Race.Thread(Race.StepCall(start, status, choice).pc, matches), status, choice, 0);
    if status.Approved? || status.Expired? {
      SoloReserve(matches, status, choice);
      SoloSplits(Race.Thread(Race.Reserving, matches), status, choice, 3, 5);
      hide Race.Solo;
      SoloFinish(choice);
    } else {
      hide Race.Solo;
    }
    forall t: Race.Thread, st, n | t.pc.Raised? ensures Race.Solo(t, st, choice, n) == (t, st) {
      SoloEnds(t, st, choice, n);
    }
  }

  lemma SoloReserve(matches: bool, status: Status, choice: Race.Choice)
    requires status.Approved? || status.Expired?
    ensures Race.Solo(Race.Thread(Race.Reserving, matches), status, choice, 3) ==
            if status.Approved? && choice.due then (Race.Thread(Race.Raised, matches), Expired)
            else if status.Approved? && matches then (Race.Thread(Race.Launching, matches), Reserved)
            else (Race.Thread(Race.Raised, matches), status)
  {
    Race.SoloUnfolds(Race.Thread(Race.Reserving, matches), status, choice);
    hide Race.Solo;
  }

  lemma SoloFinish(choice: Race.Choice)
    ensures Race.Solo(Race.Thread(Race.Launching, true), Reserved, choice, 5) ==
            if choice.starts then (Race.Thread(Race.Returned, true), Consumed)
            else (Race.Thread(Race.Raised, true), Approved)
  {}

  lemma {:induction false} SoloSplits(thread: Race.Thread, status: Status, choice: Race.Choice, m: nat, n: nat)
    ensures var (middle, left) := Race.Solo(thread, status, choice, m);
            Race.Solo(thread, status, choice, m + n) == Race.Solo(middle, left, choice, n)
    decreases m
  {
    if m > 0 {
      var e := Race.StepCall(thread, status, choice);
      hide Race.StepCall;
      SoloSplits(thread.(pc := e.pc), e.status, choice, m - 1, n);
    }
  }

  lemma {:induction false} SoloEnds(thread: Race.Thread, status: Status, choice: Race.Choice, n: nat)
    requires thread.pc.Raised?
    ensures Race.Solo(thread, status, choice, n) == (thread, status)
    decreases n
  {
    if n > 0 { SoloEnds(thread, status, choice, n - 1); }
  }
}
