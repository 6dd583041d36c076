/** Any sequence of manager calls, raising or not: log, identity, absorption and conservation. */
module ApprovalHistory {
  import opened Wrappers
  import opened Approval

  function ApplyAll(s: Snapshot, calls: seq<Call>): Snapshot {
    if calls == [] then s else Apply(ApplyAll(s, calls[..|calls| - 1]), calls[|calls| - 1]).0
  }

  /** What an event of each kind leaves in the store. */
  function StatusAfter(kind: EventKind): Status {
    match kind
    case WasRequested => Pending
    case WasApproved => Approved
    case WasRejected => Rejected
    case WasReserved => Reserved
    case WasReleased => Approved
    case WasConsumed => Consumed
    case WasExpired => Expired
  }

  /** The lifecycle: which event may follow which stored status. */
  predicate MayFollow(before: Option<Status>, kind: EventKind) {
    match kind
    case WasRequested => before.None?
    case WasApproved => before == Some(Pending)
    case WasRejected => before == Some(Pending)
    case WasReserved => before == Some(Approved)
    case WasReleased => before == Some(Reserved)
    case WasConsumed => before == Some(Reserved)
    case WasExpired => before == Some(Pending) || before == Some(Approved)
  }

  function StatusIn(requests: map<string, Request>, id: string): Option<Status> {
    if id in requests then Some(requests[id].status) else None
  }

  /**
   * What a lifecycle step may change of the request itself: decision fields on a decision,
   * `consumedAt` on consumption.
   */
  predicate KeepsIdentity(r: Request, e: Event) {
    && r.command == e.request.command && r.policy == e.request.policy
    && r.createdAt == e.request.createdAt && r.expiresAt == e.request.expiresAt
    && (e.kind.WasApproved? || e.kind.WasRejected? ||
        (r.decidedAt == e.request.decidedAt && r.decisionReason == e.request.decisionReason))
    && (e.kind.WasConsumed? || r.consumedAt == e.request.consumedAt)
  }

  /** `e` continues the life of its request: a legal event that keeps its identity. */
  predicate Continues(requests: map<string, Request>, e: Event) {
    && e.request.status == StatusAfter(e.kind)
    && MayFollow(StatusIn(requests, e.request.id), e.kind)
    && (e.request.id in requests ==> KeepsIdentity(requests[e.request.id], e))
  }

  /** A call changes nothing, or stores and publishes one request that continues its own history. */
  lemma CallsRecordOneEvent(s: Snapshot, call: Call)
    requires WellKeyed(s.requests)
    ensures var t := Apply(s, call).0;
            t == s || exists e :: Continues(s.requests, e) && t == Record(s, e.kind, e.request)
  {
    var t := Apply(s, call).0;
    if t != s {
      var e := t.events[|t.events| - 1];
      assert Continues(s.requests, e) && t == Record(s, e.kind, e.request);
    }
  }

  /** Every event in the log continues the store the events before it describe. */
  ghost predicate LifecycleLog(initial: map<string, Request>, events: seq<Event>) {
    forall i :: 0 <= i < |events| ==> Continues(Replay(initial, events[..i]), events[i])
  }

  lemma AppendEvent(initial: map<string, Request>, events: seq<Event>, e: Event)
    requires LifecycleLog(initial, events) && Continues(Replay(initial, events), e)
    ensures LifecycleLog(initial, events + [e])
    ensures Replay(initial, events + [e]) == Replay(initial, events)[e.request.id := e.request]
  {
    var longer := events + [e];
    assert longer[..|events|] == events;
    forall i | 0 <= i < |longer| ensures Continues(Replay(initial, longer[..i]), longer[i]) {
      if i < |events| { assert longer[..i] == events[..i]; }
    }
  }

  /** After any calls, the published events rebuild the store, and every one of them was a legal step. */
  lemma {:induction false} LogRebuildsStore(initial: map<string, Request>, calls: seq<Call>)
    requires WellKeyed(initial)
    ensures var s := ApplyAll(Snapshot(initial, []), calls);
            WellKeyed(s.requests) && s.requests == Replay(initial, s.events) && LifecycleLog(initial, s.events)
  {
    if calls != [] {
      LogRebuildsStore(initial, calls[..|calls| - 1]);
      var s := ApplyAll(Snapshot(initial, []), calls[..|calls| - 1]);
      var t := ApplyAll(Snapshot(initial, []), calls);
      CallsRecordOneEvent(s, calls[|calls| - 1]);
      if t != s {
        var e :| Continues(s.requests, e) && t == Record(s, e.kind, e.request);
        AppendEvent(initial, s.events, e);
        assert Event(e.kind, e.request) == e;
      }
    }
  }

  /** A request's command never changes, and a terminal request is never touched again. */
  lemma {:induction false} TerminalIsAbsorbing(s: Snapshot, calls: seq<Call>, id: string)
    requires WellKeyed(s.requests) && id in s.requests
    ensures var t := ApplyAll(s, calls);
            && WellKeyed(t.requests) && id in t.requests && t.requests[id].command == s.requests[id].command
            && (s.requests[id].status.IsTerminal() ==> t.requests[id] == s.requests[id])
  {
    if calls != [] {
      TerminalIsAbsorbing(s, calls[..|calls| - 1], id);
      CallsRecordOneEvent(ApplyAll(s, calls[..|calls| - 1]), calls[|calls| - 1]);
    }
  }

  function Count(events: seq<Event>, id: string, kind: EventKind): nat {
    if events == [] then 0
    else Count(events[..|events| - 1], id, kind) + IsEvent(events[|events| - 1], id, kind)
  }

  function Holds(requests: map<string, Request>, id: string, status: Status): nat {
    if StatusIn(requests, id) == Some(status) then 1 else 0
  }

  /** The timestamps tell the request's life: decided iff ever decided, before any expiry; consumed iff consumed. */
  predicate TimesFit(r: Request) {
    && (r.status.Consumed? <==> r.consumedAt.Some?)
    && (r.status.Pending? ==> r.decidedAt.None?)
    && (r.status.Approved? || r.status.Reserved? || r.status.Rejected? || r.status.Consumed? ==> r.decidedAt.Some?)
    && (r.expiresAt.Some? ==>
          && r.createdAt < r.expiresAt.value
          && (r.decidedAt.Some? ==> r.decidedAt.value < r.expiresAt.value))
  }

  lemma CallKeepsTimes(s: Snapshot, call: Call)
    requires WellKeyed(s.requests) && forall id :: id in s.requests ==> TimesFit(s.requests[id])
    ensures var t := Apply(s, call).0; forall id :: id in t.requests ==> TimesFit(t.requests[id])
  {}

  /** No request is ever decided at or after its expiry, and creation, decision and consumption are on record. */
  lemma {:induction false} TimesAlwaysFit(calls: seq<Call>)
    ensures var s := ApplyAll(Snapshot(map[], []), calls);
            WellKeyed(s.requests) && forall id :: id in s.requests ==> TimesFit(s.requests[id])
  {
    if calls != [] {
      TimesAlwaysFit(calls[..|calls| - 1]);
      var s := ApplyAll(Snapshot(map[], []), calls[..|calls| - 1]);
      CallKeepsTimes(s, calls[|calls| - 1]);
      CallsRecordOneEvent(s, calls[|calls| - 1]);
      hide Apply, TimesFit;
    }
  }

  /** When a consumption is accepted: stored, reserved, for this command. The expiry plays no part. */
  lemma ConsumptionIsAcceptedExactly(s: Snapshot, id: string, command: Command, now: int)
    requires WellKeyed(s.requests)
    ensures var (t, reply) := Apply(s, Consume(id, command, now));
            && (reply.Success? <==> IsReservedFor(s, id, command))
            && (reply.Success? ==> t.requests == s.requests[id := reply.value] && reply.value.consumedAt == Some(now)
                                   && reply.value == s.requests[id].(status := Consumed, consumedAt := Some(now)))
  {}

  predicate IsReservedFor(s: Snapshot, id: string, command: Command) {
    id in s.requests && s.requests[id].status.Reserved? && s.requests[id].command == command
  }

  /** Consumed at or past its expiry. */
  predicate ConsumedLate(requests: map<string, Request>, id: string) {
    && id in requests && requests[id].status.Consumed?
    && requests[id].consumedAt.Some? && requests[id].IsExpired(requests[id].consumedAt.value)
  }

  /** The call consumes `id`, reserved for its command, at or past the expiry. */
  predicate ConsumesLate(s: Snapshot, call: Call, id: string) {
    call.Consume? && call.id == id && IsReservedFor(s, id, call.command) && s.requests[id].IsExpired(call.now)
  }

  /** The call takes the approved request `id` before its expiry. */
  predicate ReservesInTime(s: Snapshot, call: Call, id: string) {
    && call.Reserve? && call.id == id && id in s.requests
    && s.requests[id].status.Approved? && s.requests[id].command == call.command && !s.requests[id].IsExpired(call.now)
  }

  /** How one call brings a reservation or a late consumption about. */
  lemma CallConsumesLate(s: Snapshot, call: Call, id: string)
    requires WellKeyed(s.requests)
    requires id in s.requests && s.requests[id].consumedAt.Some? ==> s.requests[id].status.Consumed?
    ensures var t := Apply(s, call).0;
            && (ConsumedLate(t.requests, id) <==> ConsumedLate(s.requests, id) || ConsumesLate(s, call, id))
            && (StatusIn(t.requests, id) == Some(Reserved) ==>
                  StatusIn(s.requests, id) == Some(Reserved) || ReservesInTime(s, call, id))
  {}

  /** The state before the `i`-th of `calls`, all made on an empty store. */
  function Before(calls: seq<Call>, i: nat): Snapshot
    requires i <= |calls|
  {
    ApplyAll(Snapshot(map[], []), calls[..i])
  }

  lemma {:induction false} ReservationsWereInTime(calls: seq<Call>, id: string)
    requires StatusIn(ApplyAll(Snapshot(map[], []), calls).requests, id) == Some(Reserved)
    ensures exists i :: 0 <= i < |calls| && ReservesInTime(Before(calls, i), calls[i], id)
  {
    if calls != [] {
      var n := |calls| - 1;
      TimesAlwaysFit(calls[..n]);
      CallConsumesLate(Before(calls, n), calls[n], id);
      hide Apply, ReservesInTime, TimesFit;
      if !ReservesInTime(Before(calls, n), calls[n], id) {
        ReservationsWereInTime(calls[..n], id);
        var i :| 0 <= i < n && ReservesInTime(Before(calls[..n], i), calls[..n][i], id);
        assert calls[..n][..i] == calls[..i];
      }
    }
  }

  /** The `i`-th call reserves `id` in time, and the `j`-th, later, consumes it late. */
  predicate ReservedThenLate(calls: seq<Call>, i: int, j: int, id: string) {
    && 0 <= i < j < |calls|
    && ReservesInTime(Before(calls, i), calls[i], id) && ConsumesLate(Before(calls, j), calls[j], id)
  }

  lemma SameInPrefix(calls: seq<Call>, n: nat, i: nat, j: nat, id: string)
    requires i < j < n <= |calls|
    ensures ReservedThenLate(calls[..n], i, j, id) <==> ReservedThenLate(calls, i, j, id)
  {
    assert calls[..n][..i] == calls[..i] && calls[..n][..j] == calls[..j];
    hide ReservesInTime, ConsumesLate;
  }

  /** A request ends up consumed late exactly when it was reserved in time and a later call consumed it late. */
  lemma {:induction false} LateConsumptionExactly(calls: seq<Call>, id: string)
    ensures ConsumedLate(ApplyAll(Snapshot(map[], []), calls).requests, id) <==>
              exists i, j :: ReservedThenLate(calls, i, j, id)
  {
    if calls != [] {
      var n := |calls| - 1;
      TimesAlwaysFit(calls[..n]);
      CallConsumesLate(Before(calls, n), calls[n], id);
      LateConsumptionExactly(calls[..n], id);
      if ConsumesLate(Before(calls, n), calls[n], id) {
        ReservationsWereInTime(calls[..n], id);
        var i :| 0 <= i < n && ReservesInTime(Before(calls[..n], i), calls[..n][i], id);
        assert calls[..n][..i] == calls[..i];
        assert ReservedThenLate(calls, i, n, id);
      }
      assert forall i, j :: ReservedThenLate(calls, i, j, id) ==>
        0 <= i < j <= n && (j < n || ConsumesLate(Before(calls, n), calls[n], id));
      forall i, j | 0 <= i < j < n
        ensures ReservedThenLate(calls[..n], i, j, id) <==> ReservedThenLate(calls, i, j, id)
      {
        SameInPrefix(calls, n, i, j, id);
      }
      assert forall i, j :: ReservedThenLate(calls[..n], i, j, id) ==> 0 <= i < j < n;
      assert Before(calls, n) == ApplyAll(Snapshot(map[], []), calls[..n]);
      assert Apply(Before(calls, n), calls[n]).0 == ApplyAll(Snapshot(map[], []), calls);
      hide *;
    }
  }

  /** It does happen: expiry at 10, approved at 1, reserved at 2, consumed at 99. */
  lemma ReservationsOutliveExpiry(id: string, command: Command)
    ensures var calls := [Create(id, command, "", RequireApproval, Some(10), 0), Approve(id, None, 1),
                          Reserve(id, command, 2), Consume(id, command, 99)];
            ConsumedLate(ApplyAll(Snapshot(map[], []), calls).requests, id)
  {
    var a, b := Create(id, command, "", RequireApproval, Some(10), 0), Approve(id, None, 1);
    var c, d := Reserve(id, command, 2), Consume(id, command, 99);
    assert [a, b, c, d][..3] == [a, b, c] && [a, b, c][..2] == [a, b] && [a, b][..1] == [a] && [a][..0] == [];
    var s1 := ApplyAll(Snapshot(map[], []), [a]);
    assert s1 == Apply(ApplyAll(Snapshot(map[], []), []), a).0;
    assert StatusIn(s1.requests, id) == Some(Pending) && s1.requests[id].command == command;
    var s2 := ApplyAll(Snapshot(map[], []), [a, b]);
    assert s2 == Apply(s1, b).0;
    assert StatusIn(s2.requests, id) == Some(Approved) && s2.requests[id].expiresAt == Some(10);
    var s3 := ApplyAll(Snapshot(map[], []), [a, b, c]);
    assert s3 == Apply(s2, c).0;
    assert ReservesInTime(s2, c, id) && StatusIn(s3.requests, id) == Some(Reserved);
    assert ApplyAll(Snapshot(map[], []), [a, b, c, d]) == Apply(s3, d).0;
    assert ConsumesLate(s3, d, id);
  }

  function IsEvent(e: Event, id: string, kind: EventKind): nat { if e.request.id == id && e.kind == kind then 1 else 0 }

  /** How one legal event moves the reservation and consumption of `id`. */
  lemma EventBalance(requests: map<string, Request>, e: Event, id: string)
    requires Continues(requests, e)
    ensures var after := requests[e.request.id := e.request];
            && Holds(after, id, Consumed) == Holds(requests, id, Consumed) + IsEvent(e, id, WasConsumed)
            && Holds(after, id, Reserved) + IsEvent(e, id, WasReleased) + IsEvent(e, id, WasConsumed) ==
               Holds(requests, id, Reserved) + IsEvent(e, id, WasReserved)
  {}

  /** Reservations are conserved: each was released, consumed, or is the one still held; one consumption at most. */
  lemma {:induction false} ReservationsAreConserved(initial: map<string, Request>, events: seq<Event>, id: string)
    requires LifecycleLog(initial, events)
    ensures Holds(initial, id, Reserved) + Count(events, id, WasReserved) ==
            Count(events, id, WasReleased) + Count(events, id, WasConsumed) +
            Holds(Replay(initial, events), id, Reserved)
    ensures Holds(initial, id, Consumed) + Count(events, id, WasConsumed) ==
            Holds(Replay(initial, events), id, Consumed)
  {
    if events != [] {
      var front, last := events[..|events| - 1], events[|events| - 1];
      forall i | 0 <= i < |front| ensures Continues(Replay(initial, front[..i]), front[i]) {
        assert front[..i] == events[..i];
      }
      ReservationsAreConserved(initial, front, id);
      assert events[..|events| - 1] == front;
      EventBalance(Replay(initial, front), last, id);
      hide Continues, Holds, IsEvent;
    }
  }
}
