/** Every manager call, field by field: when it succeeds, what it stores and publishes, and why it raises. */
module ApprovalCalls {
  import opened Wrappers
  import opened Approval

  /** Waiting or approved, with an expiry that has come. */
  predicate Overdue(r: Request, now: int) {
    (r.status == Pending || r.status == Approved) && r.expiresAt.Some? && r.expiresAt.value <= now
  }

  /** The store with `request` in place of what it had, and one more event. */
  function Updated(s: Snapshot, kind: EventKind, request: Request): Snapshot {
    Snapshot(s.requests[request.id := request], s.events + [Event(kind, request)])
  }

  lemma CreateExactly(s: Snapshot, id: string, command: Command, policy: string, outcome: PolicyOutcome,
                      expiresAt: Option<int>, now: int)
    ensures var (t, reply) := Apply(s, Create(id, command, policy, outcome, expiresAt, now));
            var request := Request(id, command, policy, Pending, now, expiresAt, None, None, None);
            && (reply.Success? <==>
                  outcome == RequireApproval && id !in s.requests && (expiresAt.None? || now < expiresAt.value))
            && (reply.Success? ==> reply.value == request && t == Updated(s, WasRequested, request))
            && (reply.Failure? ==>
                  && t == s
                  && reply.error == if outcome == RequireApproval && (expiresAt.None? || now < expiresAt.value)
                                    then AlreadyExists else InvalidArgument)
  {}

  /** What a decision leaves when it is refused: nothing, save a recorded expiry. */
  predicate Refused(s: Snapshot, id: string, now: int, t: Snapshot, error: ApprovalError) {
    if id !in s.requests then t == s && error == NotFound
    else
      var request := s.requests[id];
      if Overdue(request, now) then t == Updated(s, WasExpired, request.(status := Expired)) && error == HasExpired
      else t == s && error == if request.status == Expired then HasExpired else InvalidTransition
  }

  lemma ApproveExactly(s: Snapshot, id: string, reason: Option<string>, now: int)
    requires WellKeyed(s.requests)
    ensures var (t, reply) := Apply(s, Approve(id, reason, now));
            && (reply.Success? <==>
                  && id in s.requests && s.requests[id].status == Pending
                  && (s.requests[id].expiresAt.None? || now < s.requests[id].expiresAt.value))
            && (reply.Success? ==>
                  var approved := s.requests[id].(status := Approved, decidedAt := Some(now), decisionReason := reason);
                  reply.value == approved && t == Updated(s, WasApproved, approved))
            && (reply.Failure? ==> Refused(s, id, now, t, reply.error))
  {}

  lemma RejectExactly(s: Snapshot, id: string, reason: Option<string>, now: int)
    requires WellKeyed(s.requests)
    ensures var (t, reply) := Apply(s, Reject(id, reason, now));
            && (reply.Success? <==>
                  && id in s.requests && s.requests[id].status == Pending
                  && (s.requests[id].expiresAt.None? || now < s.requests[id].expiresAt.value))
            && (reply.Success? ==>
                  var rejected := s.requests[id].(status := Rejected, decidedAt := Some(now), decisionReason := reason);
                  reply.value == rejected && t == Updated(s, WasRejected, rejected))
            && (reply.Failure? ==> Refused(s, id, now, t, reply.error))
  {}

  lemma ReserveExactly(s: Snapshot, id: string, command: Command, now: int)
    requires WellKeyed(s.requests)
    ensures var (t, reply) := Apply(s, Reserve(id, command, now));
            && (reply.Success? <==>
                  && id in s.requests && s.requests[id].status == Approved && s.requests[id].command == command
                  && (s.requests[id].expiresAt.None? || now < s.requests[id].expiresAt.value))
            && (reply.Success? ==>
                  var reserved := s.requests[id].(status := Reserved);
                  reply.value == reserved && t == Updated(s, WasReserved, reserved))
            && (reply.Failure? ==>
                  if id in s.requests && !Overdue(s.requests[id], now) && s.requests[id].status != Expired
                     && s.requests[id].command != command
                  then t == s && reply.error == CommandMismatch else Refused(s, id, now, t, reply.error))
  {}

  lemma ReleaseExactly(s: Snapshot, id: string)
    requires WellKeyed(s.requests)
    ensures var (t, reply) := Apply(s, Release(id));
            && (reply.Success? <==> id in s.requests && s.requests[id].status == Reserved)
            && (reply.Success? ==>
                  var released := s.requests[id].(status := Approved);
                  reply.value == released && t == Updated(s, WasReleased, released))
            && (reply.Failure? ==> t == s && reply.error == if id in s.requests then InvalidTransition else NotFound)
  {}

  lemma ConsumeExactly(s: Snapshot, id: string, command: Command, now: int)
    requires WellKeyed(s.requests)
    ensures var (t, reply) := Apply(s, Consume(id, command, now));
            && (reply.Success? <==>
                  id in s.requests && s.requests[id].status == Reserved && s.requests[id].command == command)
            && (reply.Success? ==>
                  var consumed := s.requests[id].(status := Consumed, consumedAt := Some(now));
                  reply.value == consumed && t == Updated(s, WasConsumed, consumed))
            && (reply.Failure? ==>
                  if id in s.requests && s.requests[id].status == Reserved
                  then
                    && t == Updated(s, WasReleased, s.requests[id].(status := Approved))
                    && reply.error == CommandMismatch
                  else Refused(s, id, now, t, reply.error))
  {}

  lemma ExpireExactly(s: Snapshot, id: string, now: int)
    requires WellKeyed(s.requests)
    ensures var (t, reply) := Apply(s, Expire(id, now));
            && (reply.Success? <==> id in s.requests && Overdue(s.requests[id], now))
            && (reply.Success? ==>
                  var expired := s.requests[id].(status := Expired);
                  reply.value == expired && t == Updated(s, WasExpired, expired))
            && (reply.Failure? ==> t == s && reply.error == if id in s.requests then InvalidTransition else NotFound)
  {}

  /** A folded log leaves an id as the latest event about it says, or as it was. */
  lemma {:induction false} ReplayKeepsLatest(initial: map<string, Request>, events: seq<Event>, id: string)
    ensures var replayed := Replay(initial, events);
            if exists e :: e in events && e.request.id == id
            then exists i :: IsLatest(events, i, id) && id in replayed && replayed[id] == events[i].request
            else (id in replayed <==> id in initial) && (id in initial ==> replayed[id] == initial[id])
  {
    if events != [] {
      var n := |events| - 1;
      ReplayKeepsLatest(initial, events[..n], id);
      assert events == events[..n] + [events[n]];
      if events[n].request.id == id {
        assert IsLatest(events, n, id);
      } else if exists e :: e in events[..n] && e.request.id == id {
        var i :| IsLatest(events[..n], i, id) && Replay(initial, events[..n])[id] == events[..n][i].request;
        assert IsLatest(events, i, id);
      }
    }
  }

  predicate IsLatest(events: seq<Event>, i: int, id: string) {
    0 <= i < |events| && events[i].request.id == id && forall j :: i < j < |events| ==> events[j].request.id != id
  }
}
