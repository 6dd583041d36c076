/** The approval store and manager, one call at a time, with the published event log. */
module Approval {
  import opened Wrappers

  datatype Status = Pending | Approved | Reserved | Rejected | Consumed | Expired {
    predicate IsTerminal() { Rejected? || Consumed? || Expired? }
  }

  datatype PolicyOutcome = Allow | RequireApproval | Deny

  datatype Command = Command(executable: string, arguments: seq<string>, settings: string)

  datatype Request = Request(
    id: string, command: Command, policy: string, status: Status, createdAt: int, expiresAt: Option<int>,
    decidedAt: Option<int>, consumedAt: Option<int>, decisionReason: Option<string>)
  {
    predicate IsExpired(now: int) { expiresAt.Some? && now >= expiresAt.value }

    /** Still able to lapse, and past due. */
    predicate Lapses(now: int) { (status.Pending? || status.Approved?) && IsExpired(now) }
  }

  datatype ApprovalError = NotFound | AlreadyExists | InvalidTransition | HasExpired | CommandMismatch | InvalidArgument

  datatype EventKind = WasRequested | WasApproved | WasRejected | WasReserved | WasReleased | WasConsumed | WasExpired

  datatype Event = Event(kind: EventKind, request: Request)

  /** The request dictionary; `transition` is its compare-and-swap. */
  class InMemoryApprovalStore {
    var requests: map<string, Request>

    ghost predicate Valid() reads this { WellKeyed(requests) }

    constructor ()
      ensures Valid() && requests == map[]
    {
      requests := map[];
    }

    method Add(request: Request) returns (error: Option<ApprovalError>)
      requires Valid()
      modifies this
      ensures Valid()
      ensures request.id in old(requests) ==> error == Some(AlreadyExists) && requests == old(requests)
      ensures request.id !in old(requests) ==> error == None && requests == old(requests)[request.id := request]
    {
      if request.id in requests {
        return Some(AlreadyExists);
      }
      requests := requests[request.id := request];
      error := None;
    }

    method Get(id: string) returns (r: Result<Request, ApprovalError>)
      ensures r == if id in requests then Success(requests[id]) else Failure(NotFound)
    {
      if id in requests {
        return Success(requests[id]);
      }
      r := Failure(NotFound);
    }

    /** Unconditional overwrite of an existing entry. */
    method Save(request: Request) returns (error: Option<ApprovalError>)
      requires Valid()
      modifies this
      ensures Valid()
      ensures request.id in old(requests) ==> error == None && requests == old(requests)[request.id := request]
      ensures request.id !in old(requests) ==> error == Some(NotFound) && requests == old(requests)
    {
      if request.id !in requests {
        return Some(NotFound);
      }
      requests := requests[request.id := request];
      error := None;
    }

    /** Replaces the entry only while it still has the expected status. */
    method Transition(id: string, expected: Status, replacement: Request) returns (r: Result<bool, ApprovalError>)
      requires Valid()
      modifies this
      ensures Valid()
      ensures id !in old(requests) ==> r == Failure(NotFound)
      ensures id in old(requests) && replacement.id != id ==> r == Failure(InvalidArgument)
      ensures id in old(requests) && replacement.id == id ==> r == Success(old(requests)[id].status == expected)
      ensures requests == if r == Success(true) then old(requests)[id := replacement] else old(requests)
    {
      if id !in requests {
        return Failure(NotFound);
      }
      if replacement.id != id {
        return Failure(InvalidArgument);
      }
      if requests[id].status != expected {
        return Success(false);
      }
      requests := requests[id := replacement];
      r := Success(true);
    }
  }

  /** Store contents and published events at one moment. */
  datatype Snapshot = Snapshot(requests: map<string, Request>, events: seq<Event>)

  /** One manager call. Creation carries the fresh id its uuid yields. */
  datatype Call =
    | Create(id: string, command: Command, policy: string, outcome: PolicyOutcome, expiresAt: Option<int>, now: int)
    | Approve(id: string, reason: Option<string>, now: int)
    | Reject(id: string, reason: Option<string>, now: int)
    | Reserve(id: string, command: Command, now: int)
    | Release(id: string)
    | Consume(id: string, command: Command, now: int)
    | Expire(id: string, now: int)

  type Reply = Result<Request, ApprovalError>

  /** Stores `request` under its id and publishes it. */
  function Record(s: Snapshot, kind: EventKind, request: Request): Snapshot {
    Snapshot(s.requests[request.id := request], s.events + [Event(kind, request)])
  }

  function Lapse(s: Snapshot, request: Request): Snapshot {
    Record(s, WasExpired, request.(status := Expired))
  }

  /** What one call does and answers; a call that raises may still have recorded an expiry or a release. */
  function Apply(s: Snapshot, call: Call): (Snapshot, Reply) {
    if call.Create? then
      var request := Request(call.id, call.command, call.policy, Pending, call.now, call.expiresAt, None, None, None);
      if (call.expiresAt.Some? && call.expiresAt.value <= call.now) || !call.outcome.RequireApproval? then
        (s, Failure(InvalidArgument))
      else if call.id in s.requests then (s, Failure(AlreadyExists))
      else (Record(s, WasRequested, request), Success(request))
    else if call.id !in s.requests then (s, Failure(NotFound))
    else
      var request := s.requests[call.id];
      match call
      case Approve(_, reason, now) => Decide(s, request, Approved, WasApproved, reason, now)
      case Reject(_, reason, now) => Decide(s, request, Rejected, WasRejected, reason, now)
      case Reserve(_, command, now) =>
        if request.Lapses(now) then (Lapse(s, request), Failure(HasExpired))
        else if request.status.Expired? then (s, Failure(HasExpired))
        else if request.command != command then (s, Failure(CommandMismatch))
        else if !request.status.Approved? then (s, Failure(InvalidTransition))
        else Answer(s, WasReserved, request.(status := Reserved))
      case Release(_) =>
        if !request.status.Reserved? then (s, Failure(InvalidTransition))
        else Answer(s, WasReleased, request.(status := Approved))
      case Consume(_, command, now) =>
        if request.Lapses(now) then (Lapse(s, request), Failure(HasExpired))
        else if request.status.Expired? then (s, Failure(HasExpired))
        else if !request.status.Reserved? then (s, Failure(InvalidTransition))
        else if request.command != command then
          (Record(s, WasReleased, request.(status := Approved)), Failure(CommandMismatch))
        else Answer(s, WasConsumed, request.(status := Consumed, consumedAt := Some(now)))
      case Expire(_, now) =>
        if request.Lapses(now) then Answer(s, WasExpired, request.(status := Expired))
        else (s, Failure(InvalidTransition))
  }

  function Answer(s: Snapshot, kind: EventKind, request: Request): (Snapshot, Reply) {
    (Record(s, kind, request), Success(request))
  }

  function Decide(s: Snapshot, request: Request, to: Status, kind: EventKind, reason: Option<string>, now: int):
    (Snapshot, Reply) {
    if request.Lapses(now) then (Lapse(s, request), Failure(HasExpired))
    else if request.status.Expired? then (s, Failure(HasExpired))
    else if !request.status.Pending? then (s, Failure(InvalidTransition))
    else Answer(s, kind, request.(status := to, decidedAt := Some(now), decisionReason := reason))
  }

  /** Folds published events into a store, the latest event of an id winning. */
  function Replay(initial: map<string, Request>, events: seq<Event>): map<string, Request> {
    if events == [] then initial else
      var last := events[|events| - 1].request;
      Replay(initial, events[..|events| - 1])[last.id := last]
  }

  /** Every entry is filed under its own id. */
  ghost predicate WellKeyed(requests: map<string, Request>) {
    forall id :: id in requests ==> requests[id].id == id
  }

  class ApprovalManager {
    const store: InMemoryApprovalStore
    var events: seq<Event>
    ghost const initial: map<string, Request>   // the store contents the manager started from

    /** The published events, folded over the initial contents, are the store. */
    ghost predicate Valid()
      reads this, store
    {
      store.Valid() && store.requests == Replay(initial, events)
    }

    constructor (store: InMemoryApprovalStore)
      requires store.Valid()
      ensures Valid() && this.store == store && events == [] && initial == store.requests
    {
      this.store, this.initial := store, store.requests;
      events := [];
    }

    ghost function State(): Snapshot
      reads this, store
    {
      Snapshot(store.requests, events)
    }

    method Create(id: string, command: Command, policy: string, outcome: PolicyOutcome,
                  expiresAt: Option<int>, now: int)
      returns (r: Reply)
      requires Valid()
      modifies this, store
      ensures Valid()
      ensures (State(), r) == Apply(old(State()), Call.Create(id, command, policy, outcome, expiresAt, now))
    {
      if expiresAt.Some? && expiresAt.value <= now {
        return Failure(InvalidArgument);
      }
      if !outcome.RequireApproval? {
        return Failure(InvalidArgument);
      }
      var request := Request(id, command, policy, Pending, now, expiresAt, None, None, None);
      var error := store.Add(request);
      if error.Some? {
        return Failure(error.value);
      }
      Publish(Event(WasRequested, request));
      r := Success(request);
    }

    method Approve(id: string, reason: Option<string>, now: int) returns (r: Reply)
      requires Valid()
      modifies this, store
      ensures Valid()
      ensures (State(), r) == Apply(old(State()), Call.Approve(id, reason, now))
    {
      var got := store.Get(id);
      if got.Failure? {
        return got;
      }
      var request := ExpireIfNeeded(got.value, now);
      if request.status.Expired? {
        return Failure(HasExpired);
      }
      if !request.status.Pending? {
        return Failure(InvalidTransition);
      }
      var approved := request.(status := Approved, decidedAt := Some(now), decisionReason := reason);
      var _ := store.Save(approved);
      Publish(Event(WasApproved, approved));
      r := Success(approved);
    }

    method Reject(id: string, reason: Option<string>, now: int) returns (r: Reply)
      requires Valid()
      modifies this, store
      ensures Valid()
      ensures (State(), r) == Apply(old(State()), Call.Reject(id, reason, now))
    {
      var got := store.Get(id);
      if got.Failure? {
        return got;
      }
      var request := ExpireIfNeeded(got.value, now);
      if request.status.Expired? {
        return Failure(HasExpired);
      }
      if !request.status.Pending? {
        return Failure(InvalidTransition);
      }
      var rejected := request.(status := Rejected, decidedAt := Some(now), decisionReason := reason);
      var _ := store.Save(rejected);
      Publish(Event(WasRejected, rejected));
      r := Success(rejected);
    }

    method Reserve(id: string, command: Command, now: int) returns (r: Reply)
      requires Valid()
      modifies this, store
      ensures Valid()
      ensures (State(), r) == Apply(old(State()), Call.Reserve(id, command, now))
    {
      var got := store.Get(id);
      if got.Failure? {
        return got;
      }
      var request := ExpireIfNeeded(got.value, now);
      if request.status.Expired? {
        return Failure(HasExpired);
      }
      if request.command != command {
        return Failure(CommandMismatch);
      }
      var reserved := request.(status := Reserved);
      var transitioned := store.Transition(id, Approved, reserved);
      if transitioned != Success(true) {
        return Failure(InvalidTransition);
      }
      Publish(Event(WasReserved, reserved));
      r := Success(reserved);
    }

    method Release(id: string) returns (r: Reply)
      requires Valid()
      modifies this, store
      ensures Valid()
      ensures (State(), r) == Apply(old(State()), Call.Release(id))
    {
      var got := store.Get(id);
      if got.Failure? {
        return got;
      }
      var released := got.value.(status := Approved);
      var transitioned := store.Transition(id, Reserved, released);
      if transitioned != Success(true) {
        return Failure(InvalidTransition);
      }
      Publish(Event(WasReleased, released));
      r := Success(released);
    }

    method Consume(id: string, command: Command, now: int) returns (r: Reply)
      requires Valid()
      modifies this, store
      ensures Valid()
      ensures (State(), r) == Apply(old(State()), Call.Consume(id, command, now))
    {
      var got := store.Get(id);
      if got.Failure? {
        return got;
      }
      var request := ExpireIfNeeded(got.value, now);
      if request.status.Expired? {
        return Failure(HasExpired);
      }
      if !request.status.Reserved? {
        return Failure(InvalidTransition);
      }
      if request.command != command {
        var _ := Release(id);
        return Failure(CommandMismatch);
      }
      var consumed := request.(status := Consumed, consumedAt := Some(now));
      var transitioned := store.Transition(id, Reserved, consumed);
      if transitioned != Success(true) {
        return Failure(InvalidTransition);
      }
      Publish(Event(WasConsumed, consumed));
      r := Success(consumed);
    }

    method Expire(id: string, now: int) returns (r: Reply)
      requires Valid()
      modifies this, store
      ensures Valid()
      ensures (State(), r) == Apply(old(State()), Call.Expire(id, now))
    {
      var got := store.Get(id);
      if got.Failure? {
        return got;
      }
      var request := got.value;
      if !request.status.Pending? && !request.status.Approved? {
        return Failure(InvalidTransition);
      }
      if !request.IsExpired(now) {
        return Failure(InvalidTransition);
      }
      var expired := request.(status := Expired);
      var _ := store.Save(expired);
      Publish(Event(WasExpired, expired));
      r := Success(expired);
    }

    /** Persists and publishes the expiry of an active request that is past due. */
    method ExpireIfNeeded(request: Request, now: int) returns (r: Request)
      requires Valid() && request.id in store.requests
      modifies this, store
      ensures Valid()
      ensures r == if request.Lapses(now) then request.(status := Expired) else request
      ensures State() == if request.Lapses(now) then Lapse(old(State()), request) else old(State())
    {
      if (request.status.Pending? || request.status.Approved?) && request.IsExpired(now) {
        var expired := request.(status := Expired);
        var _ := store.Save(expired);
        Publish(Event(WasExpired, expired));
        return expired;
      }
      r := request;
    }

    /** Appends to the log; called right after the store took the same request. */
    method Publish(event: Event)
      requires store.Valid() && store.requests == Replay(initial, events)[event.request.id := event.request]
      modifies `events
      ensures Valid() && events == old(events) + [event]
    {
      events := events + [event];
      assert events[..|events| - 1] == old(events);
    }
  }
}
