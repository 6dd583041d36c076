/**
 * Any number of concurrent executions sharing one approved request: `execute` cut into its store accesses,
 * clock readings and process launch, interleaved step by step.
 */
module ApprovalRace {
  import opened Wrappers
  import opened Approval

  /** Where one `execute` call stands; `seen` is the status in the snapshot it read. */
  datatype Pc =
    | Checking                       // about to read the status before reserving
    | Reserving                      // about to read for `reserve`
    | ReserveRead(seen: Status)      // about to compare the snapshot with the clock
    | ReserveLapse                   // about to save the snapshot as expired
    | ReserveSwap                    // about to swap approved for reserved
    | Launching                      // holds the reservation, about to start the process
    | Ran                            // the process ran or timed out; about to read for `consume`
    | ConsumeRead(seen: Status)
    | ConsumeLapse
    | ConsumeSwap                    // about to swap reserved for consumed
    | ReleaseRead                    // the launch failed; about to read for `release`
    | ReleaseSwap                    // about to swap reserved for approved
    | Returned                       // result handed back
    | Raised                         // ended in an error

  /** `matches`: whether the call's command is the approved one, which no replacement ever changes. */
  datatype Thread = Thread(pc: Pc, matches: bool)

  /** `launched` logs the calls that reached a process run or timeout, in order. */
  datatype World = World(status: Status, threads: map<nat, Thread>, launched: seq<nat>)

  /** The environment's part of a step: is the request due, does the process start, does a new call match. */
  datatype Choice = Choice(due: bool, starts: bool, matches: bool)

  predicate Lapses(seen: Status, due: bool) { (seen.Pending? || seen.Approved?) && due }

  /** What one step of a call does: its next place, the status it leaves, whether it reached a run. */
  datatype Effect = Effect(pc: Pc, status: Status, launches: bool)

  function StepCall(thread: Thread, status: Status, choice: Choice): Effect {
    match thread.pc
    case Checking => Effect(if status.Approved? || status.Expired? then Reserving else Raised, status, false)
    case Reserving => Effect(ReserveRead(status), status, false)
    case ReserveRead(seen) =>
      Effect(if Lapses(seen, choice.due) then ReserveLapse
             else if seen.Expired? || !thread.matches then Raised else ReserveSwap, status, false)
    case ReserveLapse => Effect(Raised, Expired, false)
    case ReserveSwap => if status.Approved? then Effect(Launching, Reserved, false) else Effect(Raised, status, false)
    case Launching => if choice.starts then Effect(Ran, status, true) else Effect(ReleaseRead, status, false)
    case Ran => Effect(ConsumeRead(status), status, false)
    case ConsumeRead(seen) =>
      Effect(if Lapses(seen, choice.due) then ConsumeLapse else if !seen.Reserved? then Raised
             else if !thread.matches then ReleaseRead else ConsumeSwap, status, false)
    case ConsumeLapse => Effect(Raised, Expired, false)
    case ConsumeSwap => if status.Reserved? then Effect(Returned, Consumed, false) else Effect(Raised, status, false)
    case ReleaseRead => Effect(ReleaseSwap, status, false)
    case ReleaseSwap => Effect(Raised, if status.Reserved? then Approved else status, false)
    case Returned => Effect(Returned, status, false)
    case Raised => Effect(Raised, status, false)
  }

  /** One step of call `t`, which begins if it is new. */
  function Next(w: World, t: nat, choice: Choice): World {
    if t !in w.threads then w.(threads := w.threads[t := Thread(Checking, choice.matches)])
    else
      var e := StepCall(w.threads[t], w.status, choice);
      World(e.status, w.threads[t := Thread(e.pc, w.threads[t].matches)],
            if e.launches then w.launched + [t] else w.launched)
  }

  datatype Turn = Turn(thread: nat, choice: Choice)

  const START := World(Approved, map[], [])

  function RunAll(schedule: seq<Turn>): World {
    if schedule == [] then START else
      var last := schedule[|schedule| - 1];
      Next(RunAll(schedule[..|schedule| - 1]), last.thread, last.choice)
  }

  /** Between a successful reservation and the end of the call, before or after the process ran. */
  predicate HoldsBeforeRun(pc: Pc) { pc.Launching? || pc.ReleaseRead? || pc.ReleaseSwap? }
  predicate HoldsAfterRun(pc: Pc) { pc.Ran? || pc.ConsumeRead? || pc.ConsumeSwap? }
  predicate Holder(pc: Pc) { HoldsBeforeRun(pc) || HoldsAfterRun(pc) }

  /** The approval cell, given which call holds the reservation. */
  ghost predicate CellOk(w: World, holder: Option<nat>) {
    && (w.status.Approved? || w.status.Reserved? || w.status.Consumed? || w.status.Expired?)
    // Reserved means reserved for the holder; while there is one, the request can at worst expire.
    && (w.status.Reserved? ==> holder.Some?) && (holder.Some? ==> w.status.Reserved? || w.status.Expired?)
    && (holder.Some? ==> holder.value in w.threads)
    && (holder.Some? && w.threads[holder.value].pc == ConsumeRead(Expired) ==> w.status.Expired?)
    // One run at most, and after it the approval is never available again.
    && |w.launched| <= 1 && (w.status.Consumed? ==> w.launched != [])
    && (w.launched != [] ==>
          !w.status.Approved? && w.launched[0] in w.threads && (holder.Some? ==> holder.value == w.launched[0]))
  }

  /** One call, given whether it holds the reservation and whether it reached a run. */
  predicate ThreadOk(thread: Thread, holds: bool, ran: bool) {
    && (holds <==> Holder(thread.pc))
    && (holds || thread.pc.ReserveSwap? ==> thread.matches)
    // What a holder can have seen when it came to consume.
    && (thread.pc.ConsumeRead? ==> thread.pc.seen.Reserved? || thread.pc.seen.Expired?) && !thread.pc.ConsumeLapse?
    && (ran ==> HoldsAfterRun(thread.pc) || thread.pc.Returned? || thread.pc.Raised?)
    && (HoldsAfterRun(thread.pc) ==> ran)
  }

  ghost predicate Inv(w: World, holder: Option<nat>) {
    && CellOk(w, holder)
    && forall t :: t in w.threads ==> ThreadOk(w.threads[t], holder == Some(t), w.launched == [t])
  }

  function HolderAfter(holder: Option<nat>, t: nat, w: World): Option<nat>
    requires t in w.threads
  {
    if Holder(w.threads[t].pc) then Some(t) else if holder == Some(t) then None else holder
  }

  /** What a step of `t` may do to the other calls: nothing, save taking a free reservation or the first run. */
  ghost predicate OnlyTouches(w: World, holder: Option<nat>, w': World, holder': Option<nat>, t: nat) {
    && t in w'.threads && w'.threads == w.threads[t := w'.threads[t]]
    && (w'.launched == w.launched || (w.launched == [] && w'.launched == [t]))
    && (holder' == holder || holder == Some(t) || (holder == None && holder' == Some(t)))
  }

  ghost predicate Before(w: World, holder: Option<nat>, t: nat) {
    && CellOk(w, holder)
    && if t in w.threads then ThreadOk(w.threads[t], holder == Some(t), w.launched == [t])
       else holder != Some(t) && w.launched != [t]
  }

  lemma StepTouchesOnlyItsCall(w: World, holder: Option<nat>, t: nat, choice: Choice)
    requires Before(w, holder, t)
    ensures OnlyTouches(w, holder, Next(w, t, choice), HolderAfter(holder, t, Next(w, t, choice)), t)
  {}

  lemma StepKeepsThread(w: World, holder: Option<nat>, t: nat, choice: Choice)
    requires Before(w, holder, t)
    ensures var w' := Next(w, t, choice);
            ThreadOk(w'.threads[t], HolderAfter(holder, t, w') == Some(t), w'.launched == [t])
  {}

  lemma StepKeepsCell(w: World, holder: Option<nat>, t: nat, choice: Choice)
    requires Before(w, holder, t)
    ensures CellOk(Next(w, t, choice), HolderAfter(holder, t, Next(w, t, choice)))
  {}

  lemma StepKeepsInv(w: World, holder: Option<nat>, t: nat, choice: Choice)
    requires Inv(w, holder)
    ensures Inv(Next(w, t, choice), HolderAfter(holder, t, Next(w, t, choice)))
  {
    StepTouchesOnlyItsCall(w, holder, t, choice);
    StepKeepsThread(w, holder, t, choice);
    StepKeepsCell(w, holder, t, choice);
    hide Next, ThreadOk, CellOk;
  }

  lemma {:induction false} RunsKeepInv(schedule: seq<Turn>) returns (holder: Option<nat>)
    ensures Inv(RunAll(schedule), holder)
  {
    if schedule == [] {
      holder := None;
    } else {
      var last := schedule[|schedule| - 1];
      var w := RunAll(schedule[..|schedule| - 1]);
      var before := RunsKeepInv(schedule[..|schedule| - 1]);
      holder := HolderAfter(before, last.thread, RunAll(schedule));
      StepKeepsInv(w, before, last.thread, last.choice);
    }
  }

  /**
   * One run per approval, under every interleaving: at most one call reaches a process run or timeout; from
   * then on the request is never approved again, and once that call has ended it is consumed or expired.
   */
  lemma OneRunPerApproval(schedule: seq<Turn>)
    ensures var w := RunAll(schedule);
            && |w.launched| <= 1
            && (w.launched != [] ==> w.status.Reserved? || w.status.Consumed? || w.status.Expired?)
            && (w.launched != [] && w.launched[0] in w.threads && !Holder(w.threads[w.launched[0]].pc) ==>
                  w.status.Consumed? || w.status.Expired?)
  {
    var holder := RunsKeepInv(schedule);
    var w := RunAll(schedule);
    if w.launched != [] {
      assert ThreadOk(w.threads[w.launched[0]], holder == Some(w.launched[0]), w.launched == [w.launched[0]]);
    }
  }

  /** A consumed approval changes again exactly when a call acts on a stale snapshot: it saves an expiry. */
  lemma ConsumedChangesOnlyByStaleExpiry(schedule: seq<Turn>, t: nat, choice: Choice)
    requires RunAll(schedule).status.Consumed?
    ensures var w := RunAll(schedule);
            Next(w, t, choice).status != Consumed <==> t in w.threads && w.threads[t].pc.ReserveLapse?
  {
    var holder := RunsKeepInv(schedule);
    var w := RunAll(schedule);
    if t in w.threads { assert ThreadOk(w.threads[t], holder == Some(t), w.launched == [t]); }
  }

  /** The `i`-th turn saves an expiry read earlier, over a consumed approval. */
  predicate SavesStaleExpiry(schedule: seq<Turn>, i: nat) {
    && i < |schedule| && RunAll(schedule[..i]).status.Consumed?
    && schedule[i].thread in RunAll(schedule[..i]).threads
    && RunAll(schedule[..i]).threads[schedule[i].thread].pc.ReserveLapse?
  }

  predicate ConsumedAfter(schedule: seq<Turn>, i: nat) { i <= |schedule| && RunAll(schedule[..i]).status.Consumed? }

  lemma ExpiredIsFinal(w: World, t: nat, choice: Choice)
    requires w.status.Expired?
    ensures Next(w, t, choice).status.Expired?
  {}

  lemma {:induction false} StaleSaveEndsExpired(schedule: seq<Turn>, i: nat)
    requires SavesStaleExpiry(schedule, i)
    ensures RunAll(schedule).status.Expired?
  {
    var n := |schedule| - 1;
    if i < n {
      assert schedule[..n][..i] == schedule[..i];
      StaleSaveEndsExpired(schedule[..n], i);
      ExpiredIsFinal(RunAll(schedule[..n]), schedule[n].thread, schedule[n].choice);
      hide Next;
    }
  }

  lemma {:induction false} ConsumedStaysOrIsSavedOver(schedule: seq<Turn>, k: nat)
    requires ConsumedAfter(schedule, k)
    ensures RunAll(schedule).status.Consumed? || exists i: nat :: SavesStaleExpiry(schedule, i)
    decreases |schedule|
  {
    var n := |schedule| - 1;
    if k == |schedule| {
      assert schedule[..k] == schedule;
    } else {
      var front, last := schedule[..n], schedule[n];
      assert front[..k] == schedule[..k];
      ConsumedStaysOrIsSavedOver(front, k);
      if RunAll(front).status.Consumed? {
        ConsumedChangesOnlyByStaleExpiry(front, last.thread, last.choice);
        hide Next, RunAll;
        if !SavesStaleExpiry(schedule, n) { assert RunAll(schedule).status.Consumed?; }
      } else {
        var i: nat :| SavesStaleExpiry(front, i);
        assert front[..i] == schedule[..i];
        assert SavesStaleExpiry(schedule, i);
      }
    }
  }

  /** Once consumed, an approval ends expired exactly when some turn made that save, and otherwise consumed. */
  lemma ConsumedEndsExpiredExactly(schedule: seq<Turn>)
    requires exists k: nat :: ConsumedAfter(schedule, k)
    ensures RunAll(schedule).status.Expired? <==> exists i: nat :: SavesStaleExpiry(schedule, i)
    ensures RunAll(schedule).status.Expired? || RunAll(schedule).status.Consumed?
  {
    var k: nat :| ConsumedAfter(schedule, k);
    ConsumedStaysOrIsSavedOver(schedule, k);
    hide *;
    if i: nat :| SavesStaleExpiry(schedule, i) { StaleSaveEndsExpired(schedule, i); }
  }

  lemma TakeTurn(schedule: seq<Turn>, turn: Turn)
    ensures RunAll(schedule + [turn]) == Next(RunAll(schedule), turn.thread, turn.choice)
  {
    assert (schedule + [turn])[..|schedule|] == schedule;
  }

  const CALM := Choice(false, true, true)
  const DUE := Choice(true, true, true)

  /** The clock does not go back: once the request is due it stays due. */
  predicate ClockAdvances(schedule: seq<Turn>) {
    forall i, j :: 0 <= i < j < |schedule| && schedule[i].choice.due ==> schedule[j].choice.due
  }

  function FourSteps(w: World, t: nat, choice: Choice): World {
    Next(Next(Next(Next(w, t, choice), t, choice), t, choice), t, choice)
  }

  function FourTurns(t: nat, choice: Choice): seq<Turn> {
    [Turn(t, choice), Turn(t, choice), Turn(t, choice), Turn(t, choice)]
  }

  lemma TakeFourTurns(schedule: seq<Turn>, t: nat, choice: Choice)
    ensures RunAll(schedule + FourTurns(t, choice)) == FourSteps(RunAll(schedule), t, choice)
  {
    var a := Turn(t, choice);
    TakeTurn(schedule, a);
    TakeTurn(schedule + [a], a);
    TakeTurn(schedule + [a] + [a], a);
    TakeTurn(schedule + [a] + [a] + [a], a);
    assert schedule + [a] + [a] + [a] + [a] == schedule + FourTurns(t, choice);
    hide Next, RunAll;
  }

  const RESERVING := World(Approved, map[0 := Thread(ReserveSwap, true)], [])
  const STALE := World(Approved, map[0 := Thread(ReserveSwap, true), 1 := Thread(ReserveLapse, true)], [])
  const CONSUMING := World(Reserved, map[0 := Thread(ConsumeSwap, true), 1 := Thread(ReserveLapse, true)], [0])

  lemma BothCallsRead()
    ensures FourSteps(START, 0, CALM) == RESERVING && FourSteps(RESERVING, 1, DUE) == STALE
  {}

  lemma ThenBothWrite()
    ensures FourSteps(STALE, 0, DUE) == CONSUMING
    ensures Next(CONSUMING, 0, DUE).status.Consumed?
    ensures Next(Next(CONSUMING, 0, DUE), 1, DUE).status.Expired?
  {}

  const UNTIL_CONSUMING := FourTurns(0, CALM) + FourTurns(1, DUE) + FourTurns(0, DUE)

  lemma ConsumingIsReached()
    ensures RunAll(UNTIL_CONSUMING) == CONSUMING
  {
    assert RunAll([]) == START;
    hide Next, RunAll, FourSteps;
    TakeFourTurns([], 0, CALM);
    assert [] + FourTurns(0, CALM) == FourTurns(0, CALM);
    TakeFourTurns(FourTurns(0, CALM), 1, DUE);
    TakeFourTurns(FourTurns(0, CALM) + FourTurns(1, DUE), 0, DUE);
    BothCallsRead();
    ThenBothWrite();
  }

  /**
   * Such a schedule exists, under a clock that only advances. Call 0 reads the approved request before it is due;
   * call 1 reads it once it is due; before call 1 saves that, call 0 reserves, runs and consumes; then the
   * unconditional save turns the consumed approval into an expired one.
   */
  lemma StaleExpiryOverwritesConsumption()
    ensures exists schedule, turn ::
              && ClockAdvances(schedule + [turn])
              && RunAll(schedule).status.Consumed? && RunAll(schedule + [turn]).status.Expired?
  {
    var consumed := UNTIL_CONSUMING + [Turn(0, DUE)];
    assert forall i :: 4 <= i < |consumed| ==> consumed[i].choice.due;
    assert ClockAdvances(consumed + [Turn(1, DUE)]);
    hide *;
    ConsumingIsReached();
    TakeTurn(UNTIL_CONSUMING, Turn(0, DUE));
    TakeTurn(consumed, Turn(1, DUE));
    ThenBothWrite();
  }

  /** Nothing has lapsed, and the call that ran either still holds the reservation or has consumed it. */
  ghost predicate Calm(w: World) {
    && !w.status.Expired?
    && (forall t :: t in w.threads ==> !w.threads[t].pc.ReserveLapse?)
    && (w.launched != [] && w.launched[0] in w.threads ==>
          Holder(w.threads[w.launched[0]].pc) || (w.threads[w.launched[0]].pc.Returned? && w.status.Consumed?))
  }

  lemma StepKeepsCalm(w: World, holder: Option<nat>, t: nat, choice: Choice)
    requires Before(w, holder, t) && Calm(w) && !choice.due
    ensures Calm(Next(w, t, choice))
  {}

  lemma {:induction false} RunsStayCalm(schedule: seq<Turn>) returns (holder: Option<nat>)
    requires forall turn :: turn in schedule ==> !turn.choice.due
    ensures Inv(RunAll(schedule), holder) && Calm(RunAll(schedule))
  {
    if schedule == [] {
      holder := None;
    } else {
      var front, last := schedule[..|schedule| - 1], schedule[|schedule| - 1];
      assert last in schedule;
      var before := RunsStayCalm(front);
      StepKeepsInv(RunAll(front), before, last.thread, last.choice);
      StepKeepsCalm(RunAll(front), before, last.thread, last.choice);
      holder := HolderAfter(before, last.thread, RunAll(schedule));
    }
  }

  /**
   * While nothing falls due the request never expires, and the call that ran the process either still holds the
   * reservation or has returned its result and left the approval consumed.
   */
  lemma RunIsConsumedUnlessDue(schedule: seq<Turn>)
    requires forall turn :: turn in schedule ==> !turn.choice.due
    ensures var w := RunAll(schedule);
            && !w.status.Expired?
            && forall t :: t in w.launched ==>
                 && t in w.threads
                 && ((HoldsAfterRun(w.threads[t].pc) && w.status.Reserved?) ||
                     (w.threads[t].pc.Returned? && w.status.Consumed?))
  {
    var holder := RunsStayCalm(schedule);
    var w := RunAll(schedule);
    forall t | t in w.launched
      ensures t in w.threads
      ensures (HoldsAfterRun(w.threads[t].pc) && w.status.Reserved?) ||
              (w.threads[t].pc.Returned? && w.status.Consumed?)
    {
      assert w.launched == [t];
      assert ThreadOk(w.threads[t], holder == Some(t), w.launched == [t]);
    }
  }

  /** A call stepping alone, under one clock reading. */
  function Solo(thread: Thread, status: Status, choice: Choice, steps: nat): (Thread, Status)
    decreases steps
  {
    if steps == 0 then (thread, status) else
      var e := StepCall(thread, status, choice);
      Solo(thread.(pc := e.pc), e.status, choice, steps - 1)
  }

  /** Undisturbed, the steps of `reserve` do to the stored status what the whole manager call does. */
  lemma SoloReserveIsReserve(s: Snapshot, id: string, command: Command, now: int)
    requires WellKeyed(s.requests) && id in s.requests
    ensures var r := s.requests[id];
            var (s', reply) := Apply(s, Reserve(id, command, now));
            var end := Solo(Thread(Reserving, r.command == command), r.status, Choice(r.IsExpired(now), true, true), 3);
            && end.1 == s'.requests[id].status && end.0.pc == if reply.Success? then Launching else Raised
  {}

  /** And those of `consume`, including the release on a changed command. */
  lemma SoloConsumeIsConsume(s: Snapshot, id: string, command: Command, now: int)
    requires WellKeyed(s.requests) && id in s.requests
    ensures var r := s.requests[id];
            var (s', reply) := Apply(s, Consume(id, command, now));
            var end := Solo(Thread(Ran, r.command == command), r.status, Choice(r.IsExpired(now), true, true), 4);
            && end.1 == s'.requests[id].status && end.0.pc == if reply.Success? then Returned else Raised
  {
    var r := s.requests[id];
    var choice := Choice(r.IsExpired(now), true, true);
    var thread := Thread(Ran, r.command == command);
    SoloUnfolds(thread, r.status, choice);
    assert StepCall(thread, r.status, choice) == Effect(ConsumeRead(r.status), r.status, false);
    hide Solo;
    if r.Lapses(now) {
      assert Solo(thread, r.status, choice, 4) == (thread.(pc := Raised), Expired);
    } else if !r.status.Reserved? {
      assert Solo(thread, r.status, choice, 4) == (thread.(pc := Raised), r.status);
    } else if r.command != command {
      assert Solo(thread, r.status, choice, 4) == (thread.(pc := Raised), Approved);
    } else {
      assert Solo(thread, r.status, choice, 4) == (thread.(pc := Returned), Consumed);
    }
  }

  lemma SoloUnfolds(thread: Thread, status: Status, choice: Choice)
    ensures var a := StepCall(thread, status, choice);
            var b := StepCall(thread.(pc := a.pc), a.status, choice);
            var c := StepCall(thread.(pc := b.pc), b.status, choice);
            var d := StepCall(thread.(pc := c.pc), c.status, choice);
            && Solo(thread, status, choice, 3) == (thread.(pc := c.pc), c.status)
            && Solo(thread, status, choice, 4) == (thread.(pc := d.pc), d.status)
  {}
}
